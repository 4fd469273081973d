/**
  The valuation core of the simulation engine: the free-cash-flow formula,
  the discounted-sum NPV, the per-draw projection of an income statement
  into a Gordon-growth NPV, the Monte Carlo driver with its aggregation, and
  the balance-sheet equation check.

  Money is exact `real`. The two vectors of normal draws are inputs
  (`growth[i]`, `opexChange[i]`), so every draw is a function of its inputs.
*/
module Finance {
  import opened Wrappers
  import opened Statistics

  /** Perpetual growth rate g of the terminal value. */
  const TerminalGrowth: real := 0.02
  /** Default weighted average cost of capital. */
  const BaseDiscountRate: real := 0.08
  /** How far above g a clamped discount rate is set. */
  const ClampMargin: real := 0.01
  /** Tax rate used when the report has no "TaxRate" indicator. */
  const DefaultTaxRate: real := 0.25
  /** Number of draws kept in the aggregate for inspection. */
  const RetainedRuns: nat := 100

  // ---------------------------------------------------------------------
  // Data model
  // ---------------------------------------------------------------------

  datatype IncomeStatement = IncomeStatement(
    revenue: real, costOfGoodsSold: real, grossProfit: real, opEx: real,
    ebitda: real, depreciationAndAmortization: real, ebit: real,
    interestExpense: real, taxes: real, netIncome: real)

  /** Signed as on a cash-flow statement: outflows are negative. */
  datatype CashFlow = CashFlow(
    netIncome: real, depreciation: real, changeInWorkingCapital: real,
    cashFromOperations: real, capEx: real, cashFromInvesting: real,
    debtRepayment: real, dividends: real, cashFromFinancing: real,
    netChangeInCash: real)

  /** The entries of a dictionary in insertion order; keys are unique. */
  predicate DistinctKeys(entries: seq<(string, real)>) {
    forall i, j :: 0 <= i < j < |entries| ==> entries[i].0 != entries[j].0
  }

  type Category = entries: seq<(string, real)> | DistinctKeys(entries) witness []

  datatype BalanceSheet = BalanceSheet(assets: Category, liabilities: Category, equity: Category)

  datatype FinancialReport = FinancialReport(
    incomeStatement: IncomeStatement, balanceSheet: BalanceSheet,
    cashFlow: CashFlow, kpis: map<string, real>)

  /** Integer basis-point deltas relative to the report's baselines. */
  datatype ScenarioParams = ScenarioParams(
    opexDeltaBps: int, revenueGrowthBps: int, taxRateDeltaBps: int, discountRateBps: int)

  datatype Driver = Revenue | OpEx

  datatype SimulationResult = SimulationResult(
    scenarioId: nat, revenue: real, ebitda: real, netIncome: real,
    fcf: real, npv: real, keyDriver: Driver)

  datatype AggregatedSimulation = AggregatedSimulation(
    medianNpv: real, p10Npv: real, p90Npv: real,
    medianRevenue: real, medianEbitda: real, medianFcf: real,
    simulationRuns: seq<SimulationResult>)

  datatype SimulationError = NonPositiveRevenue(revenue: real) | NoDraws

  // ---------------------------------------------------------------------
  // Free cash flow
  // ---------------------------------------------------------------------

  /** NOPAT plus D&A plus the working-capital and capital-expenditure flows,
      each added with the sign it already carries. */
  function CalculateFcf(ebit: real, taxRate: real, depAmort: real,
                        changeWorkingCapital: real, capex: real): (fcf: real)
  {
    ebit * (1.0 - taxRate) + depAmort + changeWorkingCapital + capex
  }

  /** No sign correction: the two cash-flow items enter exactly as given,
      so an outflow (negative) lowers FCF and an inflow raises it, one for
      one; only NOPAT depends on the tax rate. */
  lemma FcfAddsSignedFlows(ebit: real, taxRate: real, depAmort: real,
                           changeWorkingCapital: real, capex: real)
    ensures CalculateFcf(ebit, taxRate, depAmort, changeWorkingCapital, capex)
         == CalculateFcf(ebit, taxRate, 0.0, 0.0, 0.0) + depAmort + changeWorkingCapital + capex
    ensures CalculateFcf(ebit, taxRate, 0.0, 0.0, 0.0) == ebit - ebit * taxRate
  {
  }

  /** Tax acts on EBIT only: raising the rate costs exactly EBIT times the
      increase, so FCF falls with the rate for a positive EBIT and does not
      depend on it when EBIT is zero. */
  lemma FcfFallsWithTax(ebit: real, lowRate: real, highRate: real, depAmort: real,
                        changeWorkingCapital: real, capex: real)
    requires lowRate <= highRate
    ensures CalculateFcf(ebit, lowRate, depAmort, changeWorkingCapital, capex)
          - CalculateFcf(ebit, highRate, depAmort, changeWorkingCapital, capex)
         == ebit * (highRate - lowRate)
    ensures ebit > 0.0 && lowRate < highRate ==>
      CalculateFcf(ebit, highRate, depAmort, changeWorkingCapital, capex)
        < CalculateFcf(ebit, lowRate, depAmort, changeWorkingCapital, capex)
    ensures ebit == 0.0 ==>
      CalculateFcf(ebit, highRate, depAmort, changeWorkingCapital, capex)
        == CalculateFcf(ebit, lowRate, depAmort, changeWorkingCapital, capex)
  {
    if ebit > 0.0 && lowRate < highRate {
      assert ebit * (highRate - lowRate) > 0.0;
    }
  }

  /** EBIT 100 at a 25% tax rate, D&A 10, a working-capital outflow of 5
      and capital expenditure of 20 leave 60. */
  lemma FcfExample()
    ensures CalculateFcf(100.0, 0.25, 10.0, -5.0, -20.0) == 60.0
  {
  }

  // ---------------------------------------------------------------------
  // Net present value of a stream
  // ---------------------------------------------------------------------

  function Pow(b: real, t: nat): (p: real)
    ensures t > 0 ==> (p == 0.0 <==> b == 0.0)
    ensures b > 0.0 ==> p > 0.0
  {
    if t == 0 then 1.0 else b * Pow(b, t - 1)
  }

  /** The stream discounted in stream order: flow t (from 1) is divided by
      (1 + rate)^t. Undefined only when a flow is divided by zero. */
  function DiscountedSum(flows: seq<real>, rate: real): real
    requires rate != -1.0 || |flows| == 0
  {
    if |flows| == 0 then 0.0
    else DiscountedSum(flows[..|flows| - 1], rate) + flows[|flows| - 1] / Pow(1.0 + rate, |flows|)
  }

  /** Reference definition: the value one period before the first flow is
      that flow plus the value of the rest, all discounted by one period. */
  function PresentValue(flows: seq<real>, rate: real): real
    requires rate != -1.0
  {
    if |flows| == 0 then 0.0 else (flows[0] + PresentValue(flows[1..], rate)) / (1.0 + rate)
  }

  /** The undiscounted total of a stream of flows. */
  function Sum(flows: seq<real>): real {
    if |flows| == 0 then 0.0 else Sum(flows[..|flows| - 1]) + flows[|flows| - 1]
  }

  datatype NpvError = DivisionByZero

  /** The accumulator loop of the stream NPV. A rate of -1 makes the first
      divisor zero, which is an error for a non-empty stream. */
  method CalculateNpv(fcfStream: seq<real>, discountRate: real) returns (npv: Result<real, NpvError>)
    ensures npv.Failure? <==> discountRate == -1.0 && |fcfStream| > 0
    ensures npv.Success? ==> npv.value == DiscountedSum(fcfStream, discountRate)
    ensures |fcfStream| == 0 ==> npv == Success(0.0)
  {
    var acc := 0.0;
    var t := 1;
    while t <= |fcfStream|
      invariant 1 <= t <= |fcfStream| + 1
      invariant t > 1 ==> discountRate != -1.0
      invariant acc == DiscountedSum(fcfStream[..t - 1], discountRate)
    {
      var divisor := Pow(1.0 + discountRate, t);
      if divisor == 0.0 {
        return Failure(DivisionByZero);
      }
      assert fcfStream[..t][..t - 1] == fcfStream[..t - 1];
      acc := acc + fcfStream[t - 1] / divisor;
      t := t + 1;
    }
    assert fcfStream[..|fcfStream|] == fcfStream;
    return Success(acc);
  }

  lemma DivSplit(u: real, v: real, b: real)
    requires b != 0.0
    ensures (u + v) / b == u / b + v / b
  {
  }

  lemma DivDiv(x: real, p: real, b: real)
    requires p != 0.0 && b != 0.0
    ensures x / p / b == x / (b * p)
  {
    assert (x / p / b) * (b * p) == x;
  }

  /** The arithmetic step of appending a flow one period further out. */
  lemma SnocStep(a: real, p: real, x: real, d: real, b: real)
    requires b != 0.0 && d != 0.0
    ensures (a + (p + x / d)) / b == (a + p) / b + x / (b * d)
  {
    DivSplit(a + p, x / d, b);
    DivDiv(x, d, b);
  }

  /** Appending a flow adds it discounted by one period per position. */
  lemma {:induction false} PresentValueSnoc(flows: seq<real>, x: real, rate: real)
    requires rate != -1.0
    ensures PresentValue(flows + [x], rate) == PresentValue(flows, rate) + x / Pow(1.0 + rate, |flows| + 1)
    decreases |flows|
  {
    var b := 1.0 + rate;
    if |flows| == 0 {
      assert [x][1..] == [];
    } else {
      var rest := flows[1..];
      var ext := flows + [x];
      assert ext[0] == flows[0] && ext[1..] == rest + [x];
      PresentValueSnoc(rest, x, rate);
      var d := Pow(b, |rest| + 1);
      assert PresentValue(ext, rate) == (flows[0] + (PresentValue(rest, rate) + x / d)) / b;
      SnocStep(flows[0], PresentValue(rest, rate), x, d, b);
      assert Pow(b, |flows| + 1) == b * d;
    }
  }

  /** The loop's left-to-right sum of flow_t / (1+r)^t is the recursive
      present value of the stream. */
  lemma {:induction false} NpvIsPresentValue(flows: seq<real>, rate: real)
    requires rate != -1.0
    ensures DiscountedSum(flows, rate) == PresentValue(flows, rate)
    decreases |flows|
  {
    if |flows| > 0 {
      var init, last := flows[..|flows| - 1], flows[|flows| - 1];
      NpvIsPresentValue(init, rate);
      PresentValueSnoc(init, last, rate);
      assert init + [last] == flows;
    }
  }

  lemma {:induction false} PowOne(t: nat)
    ensures Pow(1.0, t) == 1.0
  {
    if t > 0 {
      PowOne(t - 1);
    }
  }

  /** At a zero rate nothing is discounted: the NPV is the plain sum. */
  lemma {:induction false} NpvUndiscounted(flows: seq<real>)
    ensures DiscountedSum(flows, 0.0) == Sum(flows)
    decreases |flows|
  {
    if |flows| > 0 {
      NpvUndiscounted(flows[..|flows| - 1]);
      PowOne(|flows|);
    }
  }

  /** Two flows of 100 at 10% are worth about 173.55. */
  lemma NpvTwoFlowExample()
    ensures 173.54 < DiscountedSum([100.0, 100.0], 0.10) < 173.56
  {
    assert [100.0, 100.0][..1] == [100.0];
    assert [100.0][..0] == [];
    assert Pow(1.1, 1) == 1.1;
    assert Pow(1.1, 2) == 1.21;
  }

  // ---------------------------------------------------------------------
  // Discount rate and terminal value
  // ---------------------------------------------------------------------

  function NominalDiscountRate(bps: int): real {
    BaseDiscountRate + bps as real / 10000.0
  }

  /** The discount rate after the guard that keeps it above g. */
  function EffectiveDiscountRate(bps: int): (r: real)
    ensures r > TerminalGrowth
    ensures NominalDiscountRate(bps) > TerminalGrowth ==> r == NominalDiscountRate(bps)
    ensures NominalDiscountRate(bps) <= TerminalGrowth ==> r == TerminalGrowth + ClampMargin
    ensures r - TerminalGrowth >= 0.0001
  {
    var r := NominalDiscountRate(bps);
    if r <= TerminalGrowth then TerminalGrowth + ClampMargin else r
  }

  /** The guard fires exactly for deltas of -600 bps or less. */
  lemma ClampThreshold(bps: int)
    ensures NominalDiscountRate(bps) <= TerminalGrowth <==> bps <= -600
  {
  }

  function TerminalValue(fcf: real, r: real): real
    requires r > TerminalGrowth
  {
    fcf * (1.0 + TerminalGrowth) / (r - TerminalGrowth)
  }

  /** First-year flow plus the terminal value, both discounted one period;
      this collapses to the perpetuity fcf / (r - g). */
  function DrawNpv(fcf: real, r: real): (npv: real)
    requires r > TerminalGrowth
    ensures npv == fcf / (r - TerminalGrowth)
  {
    GordonCollapse(fcf, r);
    fcf / (1.0 + r) + TerminalValue(fcf, r) / Pow(1.0 + r, 1)
  }

  lemma GordonCollapse(fcf: real, r: real)
    requires r > TerminalGrowth
    ensures fcf / (1.0 + r) + TerminalValue(fcf, r) / Pow(1.0 + r, 1) == fcf / (r - TerminalGrowth)
  {
    assert Pow(1.0 + r, 1) == 1.0 + r;
    var a, d, g1 := 1.0 + r, r - TerminalGrowth, 1.0 + TerminalGrowth;
    assert TerminalValue(fcf, r) == fcf * g1 / d;
    GordonAlgebra(fcf, a, d, g1);
    assert fcf / (1.0 + r) + TerminalValue(fcf, r) / Pow(1.0 + r, 1) == fcf / a + fcf * g1 / d / a;
  }

  /** One period of the flow plus its discounted growing perpetuity is the
      perpetuity seen one period earlier: f/a + f*g1/d/a == f/d when a == d + g1. */
  lemma GordonAlgebra(f: real, a: real, d: real, g1: real)
    requires a != 0.0 && d != 0.0 && a == d + g1
    ensures f / a + f * g1 / d / a == f / d
  {
    DivDiv(f * g1, d, a);
    CancelCommon(f, a, d);
    DivSplit(f * d, f * g1, a * d);
    assert f * d + f * g1 == f * a;
    CancelCommon(f, d, a);
    assert d * a == a * d;
  }

  /** A common factor of numerator and denominator cancels. */
  lemma CancelCommon(f: real, a: real, d: real)
    requires a != 0.0 && d != 0.0
    ensures f * d / (a * d) == f / a
  {
    assert f / a * (a * d) == f * d;
  }

  function Inverse(x: real): real
    requires x != 0.0
  {
    1.0 / x
  }

  lemma DivLess(fcf: real, d1: real, d2: real)
    requires fcf > 0.0 && 0.0 < d1 < d2
    ensures fcf / d2 < fcf / d1
  {
    assert fcf / d2 * d2 == fcf;
    assert fcf / d1 * d1 == fcf;
    MulPos(fcf / d2, d2 - d1);
    MulPos(fcf / d1, d1);
  }

  /** Above the guard, a higher discount delta strictly lowers the NPV of a
      positive flow. */
  lemma NpvFallsWithDiscount(fcf: real, b1: int, b2: int)
    requires fcf > 0.0 && -600 < b1 < b2
    ensures DrawNpv(fcf, EffectiveDiscountRate(b2)) < DrawNpv(fcf, EffectiveDiscountRate(b1))
  {
    ClampThreshold(b1);
    ClampThreshold(b2);
    DivLess(fcf, EffectiveDiscountRate(b1) - TerminalGrowth, EffectiveDiscountRate(b2) - TerminalGrowth);
  }

  /** At or below the guard every delta values a flow the same, at 100x. */
  lemma NpvFlatWhileClamped(fcf: real, bps: int)
    requires bps <= -600
    ensures DrawNpv(fcf, EffectiveDiscountRate(bps)) == 100.0 * fcf
  {
    ClampThreshold(bps);
  }

  /** The guard makes the NPV jump: one basis point above the threshold the
      rate is 2.01%, 0.01% above g, so a flow is valued at 10000x, a hundred
      times its value at the threshold itself. The NPV is therefore not
      monotone in the discount delta across the threshold. */
  lemma NpvJumpsAtClamp(fcf: real)
    ensures DrawNpv(fcf, EffectiveDiscountRate(-599)) == 10000.0 * fcf
    ensures DrawNpv(fcf, EffectiveDiscountRate(-599)) == 100.0 * DrawNpv(fcf, EffectiveDiscountRate(-600))
  {
    NpvFlatWhileClamped(fcf, -600);
    ClampThreshold(-599);
    assert EffectiveDiscountRate(-599) - TerminalGrowth == 0.0001;
  }

  // ---------------------------------------------------------------------
  // One draw
  // ---------------------------------------------------------------------

  /** The report's tax-rate indicator, 25% when absent. */
  function BaseTaxRate(report: FinancialReport): real {
    if "TaxRate" in report.kpis then report.kpis["TaxRate"] else DefaultTaxRate
  }

  function GrossMargin(income: IncomeStatement): real {
    if income.revenue > 0.0 then income.grossProfit / income.revenue else 0.0
  }

  /** Costs at the base margin leave the base margin on the new revenue. */
  lemma MarginKept(rev: real, base: IncomeStatement)
    ensures base.revenue > 0.0 ==>
      (rev - rev * (1.0 - GrossMargin(base))) * base.revenue == rev * base.grossProfit
  {
    if base.revenue > 0.0 {
      var m := base.grossProfit / base.revenue;
      assert rev - rev * (1.0 - m) == rev * m;
      assert m * base.revenue == base.grossProfit;
      assert rev * m * base.revenue == rev * (m * base.revenue);
    }
  }

  /** Scaling by the revenue ratio makes an item proportional to revenue. */
  lemma ScaledByRevenue(item: real, rev: real, base: IncomeStatement)
    ensures base.revenue > 0.0 ==> item * RevenueScale(base, rev) * base.revenue == item * rev
  {
    if base.revenue > 0.0 {
      var b := base.revenue;
      assert rev / b * b == rev;
      assert item * (rev / b) * b == item * (rev / b * b);
    }
  }

  /** The projected income statement of one draw. */
  datatype Earnings = Earnings(
    revenue: real, opEx: real, grossProfit: real, ebitda: real, ebit: real,
    taxRate: real, taxes: real, netIncome: real)

  /** Revenue and OpEx move by their draws, the base gross margin and D&A are
      held, and a loss is not taxed. */
  function ProjectEarnings(base: IncomeStatement, taxRate: real, growth: real, opexChange: real): (e: Earnings)
    ensures e.revenue == base.revenue * (1.0 + growth)
    ensures e.opEx == base.opEx * (1.0 + opexChange)
    ensures e.grossProfit == e.revenue - e.revenue * (1.0 - GrossMargin(base))
    ensures e.ebitda == e.grossProfit - e.opEx
    ensures e.ebit == e.ebitda - base.depreciationAndAmortization
    ensures e.taxRate == taxRate
    ensures e.ebit > 0.0 ==> e.taxes == e.ebit * taxRate
    ensures e.ebit <= 0.0 ==> e.taxes == 0.0
    ensures e.netIncome == e.ebit - base.interestExpense - e.taxes
  {
    var revenue := base.revenue * (1.0 + growth);
    var opEx := base.opEx * (1.0 + opexChange);
    var cogs := revenue * (1.0 - GrossMargin(base));
    var grossProfit := revenue - cogs;
    var ebitda := grossProfit - opEx;
    var ebit := ebitda - base.depreciationAndAmortization;
    var taxes := if ebit > 0.0 then ebit * taxRate else 0.0;
    Earnings(revenue, opEx, grossProfit, ebitda, ebit, taxRate, taxes, ebit - base.interestExpense - taxes)
  }

  /** The multiplier applied to the base capital and working-capital flows. */
  function RevenueScale(base: IncomeStatement, revenue: real): real {
    if base.revenue > 0.0 then revenue / base.revenue else 1.0
  }

  /** The income statement and cash flows of one draw, projected one year. */
  datatype Projection = Projection(
    earnings: Earnings, capEx: real, changeInWorkingCapital: real, fcf: real)

  /** The tax rate of every draw: the report's rate moved by the scenario delta. */
  function DrawTaxRate(report: FinancialReport, params: ScenarioParams): real {
    BaseTaxRate(report) + params.taxRateDeltaBps as real / 10000.0
  }

  /** The projection of one draw: its earnings, capital and working-capital
      flows scaled with revenue, and the free cash flow they leave. */
  function Project(report: FinancialReport, taxRate: real, growth: real, opexChange: real): (p: Projection)
    ensures p.earnings == ProjectEarnings(report.incomeStatement, taxRate, growth, opexChange)
    ensures p.capEx == report.cashFlow.capEx * RevenueScale(report.incomeStatement, p.earnings.revenue)
    ensures p.changeInWorkingCapital
         == report.cashFlow.changeInWorkingCapital * RevenueScale(report.incomeStatement, p.earnings.revenue)
    ensures p.fcf == CalculateFcf(p.earnings.ebit, taxRate, report.incomeStatement.depreciationAndAmortization,
                                  p.changeInWorkingCapital, p.capEx)
  {
    var base := report.incomeStatement;
    var e := ProjectEarnings(base, taxRate, growth, opexChange);
    var scale := RevenueScale(base, e.revenue);
    var capEx := report.cashFlow.capEx * scale;
    var changeWc := report.cashFlow.changeInWorkingCapital * scale;
    Projection(e, capEx, changeWc, CalculateFcf(e.ebit, taxRate, base.depreciationAndAmortization, changeWc, capEx))
  }

  /** With a positive base revenue the projected gross margin equals the
      base margin, and capital and working-capital flows keep their ratio to
      revenue. */
  lemma ProjectionKeepsRatios(report: FinancialReport, taxRate: real, growth: real, opexChange: real)
    requires report.incomeStatement.revenue > 0.0
    ensures var base, p := report.incomeStatement, Project(report, taxRate, growth, opexChange);
      && p.earnings.grossProfit * base.revenue == p.earnings.revenue * base.grossProfit
      && p.capEx * base.revenue == report.cashFlow.capEx * p.earnings.revenue
      && p.changeInWorkingCapital * base.revenue == report.cashFlow.changeInWorkingCapital * p.earnings.revenue
  {
    var base, p := report.incomeStatement, Project(report, taxRate, growth, opexChange);
    MarginKept(p.earnings.revenue, base);
    ScaledByRevenue(report.cashFlow.capEx, p.earnings.revenue, base);
    ScaledByRevenue(report.cashFlow.changeInWorkingCapital, p.earnings.revenue, base);
  }

  function Abs(x: real): real { if x < 0.0 then -x else x }

  /** The draw that moved further from zero; a tie goes to OpEx. */
  function KeyDriver(growth: real, opexChange: real): (d: Driver)
    ensures d == Revenue <==> Abs(growth) > Abs(opexChange)
    ensures Abs(growth) == Abs(opexChange) ==> d == OpEx
  {
    if Abs(growth) > Abs(opexChange) then Revenue else OpEx
  }

  function SimulateDraw(report: FinancialReport, params: ScenarioParams, id: nat,
                        growth: real, opexChange: real): (s: SimulationResult)
    ensures s.scenarioId == id
    ensures s.revenue == report.incomeStatement.revenue * (1.0 + growth)
    ensures s.npv == s.fcf / (EffectiveDiscountRate(params.discountRateBps) - TerminalGrowth)
  {
    var p := Project(report, DrawTaxRate(report, params), growth, opexChange);
    var e := p.earnings;
    SimulationResult(id, e.revenue, e.ebitda, e.netIncome, p.fcf,
                     DrawNpv(p.fcf, EffectiveDiscountRate(params.discountRateBps)), KeyDriver(growth, opexChange))
  }

  /** All draws, in draw order. */
  function Draws(report: FinancialReport, params: ScenarioParams,
                 growth: seq<real>, opexChange: seq<real>): (runs: seq<SimulationResult>)
    requires |growth| == |opexChange|
    ensures |runs| == |growth|
    ensures forall i :: 0 <= i < |runs| ==>
      runs[i] == SimulateDraw(report, params, i, growth[i], opexChange[i])
  {
    seq(|growth|, i requires 0 <= i < |growth| => SimulateDraw(report, params, i, growth[i], opexChange[i]))
  }

  // ---------------------------------------------------------------------
  // Aggregation and the driver loop
  // ---------------------------------------------------------------------

  datatype Metric = Npv | RevenueOf | Ebitda | Fcf

  function Value(s: SimulationResult, m: Metric): real {
    match m
    case Npv => s.npv
    case RevenueOf => s.revenue
    case Ebitda => s.ebitda
    case Fcf => s.fcf
  }

  /** One metric of every draw, in draw order. */
  function Column(runs: seq<SimulationResult>, m: Metric): (c: seq<real>)
    ensures |c| == |runs|
    ensures forall i :: 0 <= i < |runs| ==> c[i] == Value(runs[i], m)
  {
    seq(|runs|, i requires 0 <= i < |runs| => Value(runs[i], m))
  }

  /** Medians and the 10th/90th NPV percentiles of the draws, and the first
      `RetainedRuns` draws. */
  function Summarize(runs: seq<SimulationResult>): (agg: AggregatedSimulation)
    requires |runs| > 0
    ensures agg.p10Npv <= agg.medianNpv <= agg.p90Npv
    ensures |agg.simulationRuns| == Min(|runs|, RetainedRuns)
    ensures agg.simulationRuns == runs[..|agg.simulationRuns|]
  {
    var npvs := Column(runs, Npv);
    PercentileMonotone(npvs, 10.0, 50.0);
    PercentileMonotone(npvs, 50.0, 90.0);
    AggregatedSimulation(
      Median(npvs), Percentile(npvs, 10.0), Percentile(npvs, 90.0),
      Median(Column(runs, RevenueOf)), Median(Column(runs, Ebitda)), Median(Column(runs, Fcf)),
      runs[..Min(|runs|, RetainedRuns)])
  }

  /** The Monte Carlo driver: rejects a non-positive base revenue before any
      draw, runs every draw in order, and aggregates. An OpEx above revenue
      does not stop it. */
  method RunMonteCarlo(report: FinancialReport, params: ScenarioParams,
                       growth: seq<real>, opexChange: seq<real>)
    returns (result: Result<AggregatedSimulation, SimulationError>)
    requires |growth| == |opexChange|
    ensures report.incomeStatement.revenue <= 0.0 ==>
      result == Failure(NonPositiveRevenue(report.incomeStatement.revenue))
    ensures result.Failure? <==> report.incomeStatement.revenue <= 0.0 || |growth| == 0
    ensures result.Success? ==> result.value == Summarize(Draws(report, params, growth, opexChange))
    ensures result.Success? ==>
      var kept := result.value.simulationRuns;
      && |kept| == Min(|growth|, RetainedRuns)
      && forall k :: 0 <= k < |kept| ==>
           kept[k].scenarioId == k && kept[k] == SimulateDraw(report, params, k, growth[k], opexChange[k])
  {
    var baseRev := report.incomeStatement.revenue;
    if baseRev <= 0.0 {
      return Failure(NonPositiveRevenue(baseRev));
    }
    var results: seq<SimulationResult> := [];
    var i := 0;
    while i < |growth|
      invariant 0 <= i <= |growth|
      invariant results == Draws(report, params, growth, opexChange)[..i]
    {
      results := results + [SimulateDraw(report, params, i, growth[i], opexChange[i])];
      i := i + 1;
    }
    assert results == Draws(report, params, growth, opexChange);
    if |results| == 0 {
      return Failure(NoDraws);
    }
    return Success(Summarize(results));
  }

  /** Every draw's NPV is its FCF over r - g, for the same r. */
  lemma NpvColumnIsScaledFcf(report: FinancialReport, params: ScenarioParams,
                             growth: seq<real>, opexChange: seq<real>)
    requires |growth| == |opexChange|
    ensures var runs := Draws(report, params, growth, opexChange);
      var r := EffectiveDiscountRate(params.discountRateBps);
      Column(runs, Npv) == Scale(Inverse(r - TerminalGrowth), Column(runs, Fcf))
  {
    var runs := Draws(report, params, growth, opexChange);
    var k := Inverse(EffectiveDiscountRate(params.discountRateBps) - TerminalGrowth);
    var npvs, fcfs := Column(runs, Npv), Column(runs, Fcf);
    var scaled := Scale(k, fcfs);
    forall i | 0 <= i < |runs| ensures npvs[i] == scaled[i] {
      assert scaled[i] == Times(k)(fcfs[i]);
      DrawNpvIsScaledFcf(report, params, i, growth[i], opexChange[i]);
    }
  }

  lemma DrawNpvIsScaledFcf(report: FinancialReport, params: ScenarioParams, id: nat,
                           growth: real, opexChange: real)
    ensures var s := SimulateDraw(report, params, id, growth, opexChange);
      s.npv == Times(Inverse(EffectiveDiscountRate(params.discountRateBps) - TerminalGrowth))(s.fcf)
  {
    var d := EffectiveDiscountRate(params.discountRateBps) - TerminalGrowth;
    var s := SimulateDraw(report, params, id, growth, opexChange);
    DivIsInverseTimes(s.fcf, d);
  }

  lemma DivIsInverseTimes(x: real, d: real)
    requires d != 0.0
    ensures x / d == Times(Inverse(d))(x)
  {
    assert x / d == Inverse(d) * x;
  }

  /** The discount delta does not touch cash flows. */
  lemma FcfIgnoresDiscount(report: FinancialReport, p1: ScenarioParams, p2: ScenarioParams,
                           growth: seq<real>, opexChange: seq<real>)
    requires |growth| == |opexChange|
    requires p1.(discountRateBps := 0) == p2.(discountRateBps := 0)
    ensures Column(Draws(report, p1, growth, opexChange), Fcf)
         == Column(Draws(report, p2, growth, opexChange), Fcf)
  {
    var c1, c2 := Column(Draws(report, p1, growth, opexChange), Fcf), Column(Draws(report, p2, growth, opexChange), Fcf);
    assert DrawTaxRate(report, p1) == DrawTaxRate(report, p2);
    forall i | 0 <= i < |growth| ensures c1[i] == c2[i] {
    }
  }

  /** With the draws held fixed, the median NPV is the median FCF over r - g. */
  lemma MedianNpvIsPerpetuity(report: FinancialReport, params: ScenarioParams,
                              growth: seq<real>, opexChange: seq<real>)
    requires |growth| == |opexChange| && |growth| > 0
    ensures Summarize(Draws(report, params, growth, opexChange)).medianNpv
         == Summarize(Draws(report, params, growth, opexChange)).medianFcf
            / (EffectiveDiscountRate(params.discountRateBps) - TerminalGrowth)
  {
    NpvColumnIsScaledFcf(report, params, growth, opexChange);
    MedianOfScaledColumn(Draws(report, params, growth, opexChange),
                         EffectiveDiscountRate(params.discountRateBps) - TerminalGrowth);
  }

  lemma MedianOfScaledColumn(runs: seq<SimulationResult>, d: real)
    requires |runs| > 0 && d > 0.0
    requires Column(runs, Npv) == Scale(Inverse(d), Column(runs, Fcf))
    ensures Summarize(runs).medianNpv == Summarize(runs).medianFcf / d
  {
    InverseTimes(d);
    MedianScale(Inverse(d), Column(runs, Fcf));
    PerpetuityStep(Summarize(runs).medianNpv, Summarize(runs).medianFcf, Median(Column(runs, Fcf)), d);
  }

  lemma InverseTimes(d: real)
    requires d > 0.0
    ensures Inverse(d) > 0.0
  {
  }

  lemma PerpetuityStep(npv: real, fcf: real, m: real, d: real)
    requires d > 0.0 && npv == Times(Inverse(d))(m) && m == fcf
    ensures npv == fcf / d
  {
  }

  /** Same draws, higher discount delta above the guard: a positive median
      FCF gives a strictly lower median NPV. */
  lemma MedianNpvFallsWithDiscount(report: FinancialReport, p1: ScenarioParams, p2: ScenarioParams,
                                   growth: seq<real>, opexChange: seq<real>)
    requires |growth| == |opexChange| && |growth| > 0
    requires p1.(discountRateBps := 0) == p2.(discountRateBps := 0)
    requires -600 < p1.discountRateBps < p2.discountRateBps
    requires Summarize(Draws(report, p1, growth, opexChange)).medianFcf > 0.0
    ensures Summarize(Draws(report, p2, growth, opexChange)).medianNpv
          < Summarize(Draws(report, p1, growth, opexChange)).medianNpv
  {
    FcfIgnoresDiscount(report, p1, p2, growth, opexChange);
    MedianNpvIsPerpetuity(report, p1, growth, opexChange);
    MedianNpvIsPerpetuity(report, p2, growth, opexChange);
    var m := Summarize(Draws(report, p1, growth, opexChange)).medianFcf;
    assert m == Summarize(Draws(report, p2, growth, opexChange)).medianFcf;
    NpvFallsWithDiscount(m, p1.discountRateBps, p2.discountRateBps);
  }

  // ---------------------------------------------------------------------
  // Balance sheet
  // ---------------------------------------------------------------------

  /** Dictionary lookup. */
  function Get(cat: seq<(string, real)>, key: string): (v: Option<real>)
    ensures v.Some? ==> (key, v.value) in cat
    ensures v.None? <==> forall i :: 0 <= i < |cat| ==> cat[i].0 != key
  {
    if |cat| == 0 then None
    else if cat[0].0 == key then Some(cat[0].1)
    else Get(cat[1..], key)
  }

  /** Sum of the values of all entries other than `key`. */
  function SumExcept(cat: seq<(string, real)>, key: string): real {
    if |cat| == 0 then 0.0
    else (if cat[0].0 == key then 0.0 else cat[0].1) + SumExcept(cat[1..], key)
  }

  /** Sum of the values of all entries: `sum(cat.values())`. */
  function SumValues(cat: seq<(string, real)>): real {
    if |cat| == 0 then 0.0 else cat[0].1 + SumValues(cat[1..])
  }

  /** The explicit total entry when there is one, otherwise the sum of the
      other entries. */
  function CategoryTotal(cat: Category, totalKey: string): real {
    match Get(cat, totalKey)
    case Some(v) => v
    case None => SumExcept(cat, totalKey)
  }

  /** With unique keys, a present total entry is the total. */
  lemma {:induction false} TotalFromEntry(cat: Category, totalKey: string, v: real)
    requires (totalKey, v) in cat
    ensures CategoryTotal(cat, totalKey) == v
  {
    GetUnique(cat, totalKey, v);
  }

  lemma {:induction false} GetUnique(cat: seq<(string, real)>, key: string, v: real)
    requires DistinctKeys(cat) && (key, v) in cat
    ensures Get(cat, key) == Some(v)
  {
    if cat[0] != (key, v) {
      assert (key, v) in cat[1..];
      var j :| 0 <= j < |cat[1..]| && cat[1..][j] == (key, v);
      assert cat[j + 1].0 == key;
      assert cat[0].0 != key;
      GetUnique(cat[1..], key, v);
    }
  }

  /** With no total entry, the total is the sum of every value. */
  lemma {:induction false} TotalFromSum(cat: Category, totalKey: string)
    requires forall i :: 0 <= i < |cat| ==> cat[i].0 != totalKey
    ensures CategoryTotal(cat, totalKey) == SumValues(cat)
  {
    SumExceptAbsent(cat, totalKey);
  }

  lemma {:induction false} SumExceptAbsent(cat: seq<(string, real)>, key: string)
    requires forall i :: 0 <= i < |cat| ==> cat[i].0 != key
    ensures SumExcept(cat, key) == SumValues(cat)
  {
    if |cat| > 0 {
      assert cat[0].0 != key;
      SumExceptAbsent(cat[1..], key);
    }
  }

  datatype BalanceCheck = BalanceCheck(isBalanced: bool, difference: real,
                                       totalAssets: real, totalLiabsEquity: real)

  /** Assets against liabilities plus equity, with a $1 tolerance. */
  function CheckBalanceSheet(bs: BalanceSheet): (c: BalanceCheck)
    ensures c.totalAssets == CategoryTotal(bs.assets, "TotalAssets")
    ensures c.totalLiabsEquity == CategoryTotal(bs.liabilities, "TotalLiabilities")
                                + CategoryTotal(bs.equity, "TotalEquity")
    ensures c.difference == c.totalAssets - c.totalLiabsEquity
    ensures c.isBalanced <==> -1.0 < c.difference < 1.0
  {
    var assets := CategoryTotal(bs.assets, "TotalAssets");
    var liabs := CategoryTotal(bs.liabilities, "TotalLiabilities");
    var equity := CategoryTotal(bs.equity, "TotalEquity");
    var diff := assets - (liabs + equity);
    BalanceCheck(Abs(diff) < 1.0, diff, assets, liabs + equity)
  }

  /** Totals of 100, 40 and 60 balance exactly; 100, 40 and 50 are off by 10. */
  lemma BalanceSheetExamples()
    ensures var c := CheckBalanceSheet(BalanceSheet([("TotalAssets", 100.0)],
                                                    [("TotalLiabilities", 40.0)],
                                                    [("TotalEquity", 60.0)]));
      c.isBalanced && c.difference == 0.0
    ensures var c := CheckBalanceSheet(BalanceSheet([("TotalAssets", 100.0)],
                                                    [("TotalLiabilities", 40.0)],
                                                    [("TotalEquity", 50.0)]));
      !c.isBalanced && c.difference == 10.0
  {
  }
}
