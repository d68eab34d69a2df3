/** The alert rules of the strategy scan, the status column of the holdings
    tab and the signal column of the watch table. Prices and percentages are
    exact reals; the index premium keeps numpy's infinities and NaN. */
module Alerts {
  import opened Wrappers
  import opened Floats
  import Config
  import Metrics

  /** The three alert thresholds read from the configuration. */
  datatype Thresholds = Thresholds(short: real, band: real, market: real)

  /** A watch-list entry; `strategy` is absent when the entry has no such key. */
  datatype WatchEntry = WatchEntry(strategy: Option<string>)

  /** A holding entry; each field is absent when the entry has no such key. */
  datatype HoldingEntry = HoldingEntry(cost: Option<real>, profitTarget: Option<real>,
                                       lossLimit: Option<real>, support: Option<real>)

  /** What an alert reports, with the figure the alert message shows. */
  datatype AlertKind =
    | ShortTermMove(change: real)
    | BandBreak(deviation: real)
    | Undervalued(premium: Float)
    | SupportBreach(price: real, support: real)
    | TakeProfit(profit: real)
    | StopLoss(loss: real)

  datatype Alert = Alert(code: string, kind: AlertKind)

  function Abs(x: real): real {
    if x < 0.0 then -x else x
  }

  // ---------------------------------------------------------------- watch rules

  /** The strategy of a watch entry; an entry without one is watched as a band trade. */
  function ScanStrategy(e: WatchEntry): string {
    e.strategy.GetOr(Config.BandName)
  }

  /** The one watch alert (if any) for a ticker: the strategy selects a single
      rule, and a strategy outside the three raises nothing. */
  function WatchAlert(code: string, e: WatchEntry, change: real, m: Metrics.Metrics, th: Thresholds): (r: Option<Alert>)
    ensures r.Some? ==> r.value.code == code
    ensures (r.Some? && r.value.kind.ShortTermMove?) <==> ScanStrategy(e) == Config.ShortTermName && Abs(change) > th.short
    ensures (r.Some? && r.value.kind.BandBreak?) <==> ScanStrategy(e) == Config.BandName && m.ma20 < th.band
    ensures (r.Some? && r.value.kind.Undervalued?) <==> ScanStrategy(e) == Config.MarketName && LessThan(m.premium, th.market)
    ensures r.Some? ==> r.value.kind.ShortTermMove? || r.value.kind.BandBreak? || r.value.kind.Undervalued?
  {
    var s := ScanStrategy(e);
    if s == Config.ShortTermName && Abs(change) > th.short then Some(Alert(code, ShortTermMove(change)))
    else if s == Config.BandName && m.ma20 < th.band then Some(Alert(code, BandBreak(m.ma20)))
    else if s == Config.MarketName && LessThan(m.premium, th.market) then Some(Alert(code, Undervalued(m.premium)))
    else None
  }

  /** An entry without a strategy is treated exactly like a band entry. */
  lemma MissingStrategyIsBand(code: string, change: real, m: Metrics.Metrics, th: Thresholds)
    ensures WatchAlert(code, WatchEntry(None), change, m, th) == WatchAlert(code, WatchEntry(Some(Config.BandName)), change, m, th)
  {
  }

  /** A NaN premium (an all-NaN ratio window) never raises a market alert. */
  lemma NaNPremiumNeverUndervalued(code: string, e: WatchEntry, change: real, m: Metrics.Metrics, th: Thresholds)
    requires m.premium.NaN?
    ensures WatchAlert(code, e, change, m, th).None? || !WatchAlert(code, e, change, m, th).value.kind.Undervalued?
  {
  }

  /** The rules do not check whether the metrics were computed: the all-zero
      record of a ticker without history raises a band or market alert exactly
      when that threshold is positive. */
  lemma SentinelAlerts(code: string, e: WatchEntry, change: real, m: Metrics.Metrics, th: Thresholds)
    requires Metrics.AllZero(m)
    ensures var a := WatchAlert(code, e, change, m, th);
            (a.Some? && a.value.kind.BandBreak? <==> ScanStrategy(e) == Config.BandName && th.band > 0.0)
            && (a.Some? && a.value.kind.Undervalued? <==> ScanStrategy(e) == Config.MarketName && th.market > 0.0)
  {
  }

  // ---------------------------------------------------------------- holding rules

  /** Profit in percent of the cost; 0 when the cost is not positive. */
  function ProfitPct(price: real, cost: real): (r: real)
    ensures cost <= 0.0 ==> r == 0.0
    ensures cost > 0.0 ==> r * cost == (price - cost) * 100.0
    ensures cost > 0.0 ==> (r > 0.0 <==> price > cost) && (r < 0.0 <==> price < cost)
  {
    if cost > 0.0 then (price - cost) / cost * 100.0 else 0.0
  }

  /** The risk plan as the scan reads it: no cost, no support, a 999% target
      and a -999% limit stand in for missing fields. */
  datatype RiskPlan = RiskPlan(cost: real, profitTarget: real, lossLimit: real, support: real)

  function ScanPlan(e: HoldingEntry): RiskPlan {
    RiskPlan(e.cost.GetOr(0.0), e.profitTarget.GetOr(999.0), e.lossLimit.GetOr(-999.0), e.support.GetOr(0.0))
  }

  predicate SupportBroken(p: RiskPlan, price: real) {
    p.support > 0.0 && price < p.support
  }

  predicate ProfitReached(p: RiskPlan, price: real) {
    p.cost > 0.0 && ProfitPct(price, p.cost) >= p.profitTarget
  }

  predicate LossReached(p: RiskPlan, price: real) {
    p.cost > 0.0 && ProfitPct(price, p.cost) <= p.lossLimit
  }

  /** The risk alerts of a holding, in message order: each of the three checks
      fires on its own. */
  function HoldingAlerts(code: string, e: HoldingEntry, price: real): (r: seq<Alert>)
    ensures |r| <= 3
    ensures forall i :: 0 <= i < |r| ==> r[i].code == code
    ensures (exists a :: a in r && a.kind.SupportBreach?) <==> SupportBroken(ScanPlan(e), price)
    ensures (exists a :: a in r && a.kind.TakeProfit?) <==> ProfitReached(ScanPlan(e), price)
    ensures (exists a :: a in r && a.kind.StopLoss?) <==> LossReached(ScanPlan(e), price)
    ensures forall i :: 0 <= i < |r| ==> r[i].kind.SupportBreach? || r[i].kind.TakeProfit? || r[i].kind.StopLoss?
  {
    var p := ScanPlan(e);
    var pct := ProfitPct(price, p.cost);
    (if SupportBroken(p, price) then [Alert(code, SupportBreach(price, p.support))] else [])
    + (if ProfitReached(p, price) then [Alert(code, TakeProfit(pct))] else [])
    + (if LossReached(p, price) then [Alert(code, StopLoss(pct))] else [])
  }

  /** Without a positive cost only the support check can fire, whatever the price. */
  lemma NoCostNoProfitOrLoss(code: string, e: HoldingEntry, price: real)
    requires e.cost.None? || e.cost.value <= 0.0
    ensures forall i :: 0 <= i < |HoldingAlerts(code, e, price)| ==> HoldingAlerts(code, e, price)[i].kind.SupportBreach?
  {
  }

  /** The three checks are independent: one scan can raise all three alerts for
      the same holding (a take-profit target below the stop-loss limit). */
  lemma AllThreeCanFire()
    ensures |HoldingAlerts("600519.SS", HoldingEntry(Some(10.0), Some(-50.0), Some(0.0), Some(20.0)), 5.0)| == 3
  {
    var p := ScanPlan(HoldingEntry(Some(10.0), Some(-50.0), Some(0.0), Some(20.0)));
    assert ProfitPct(5.0, 10.0) == -50.0;
    assert SupportBroken(p, 5.0) && ProfitReached(p, 5.0) && LossReached(p, 5.0);
  }

  // ---------------------------------------------------------------- holding status

  datatype Status = Hold | SupportBreak | TakeProfitSell | StopLossSell

  /** The risk plan as the holdings tab reads it: a 20% target and a -10%
      limit stand in for missing fields. */
  function StatusPlan(e: HoldingEntry): RiskPlan {
    RiskPlan(e.cost.GetOr(0.0), e.profitTarget.GetOr(20.0), e.lossLimit.GetOr(-10.0), e.support.GetOr(0.0))
  }

  /** The holdings-tab status exactly as the dashboard computes it: the profit
      and loss comparisons run even when there is no cost, on a profit of 0. */
  function HoldingStatusAsWritten(e: HoldingEntry, price: real): (s: Status)
    ensures var p := StatusPlan(e);
            var pct := ProfitPct(price, p.cost);
            && (s == SupportBreak <==> SupportBroken(p, price))
            && (s == TakeProfitSell <==> !SupportBroken(p, price) && pct >= p.profitTarget)
            && (s == StopLossSell <==> !SupportBroken(p, price) && pct < p.profitTarget && pct <= p.lossLimit)
  {
    var p := StatusPlan(e);
    var pct := ProfitPct(price, p.cost);
    if SupportBroken(p, price) then SupportBreak
    else if pct >= p.profitTarget then TakeProfitSell
    else if pct <= p.lossLimit then StopLossSell
    else Hold
  }

  /** A holding with no cost and a 0% stop-loss limit is reported as a
      stop-loss sale, although the scan raises no alert at all for it. */
  lemma AsWrittenStopsOutWithoutCost()
    ensures HoldingStatusAsWritten(HoldingEntry(Some(0.0), Some(20.0), Some(0.0), Some(0.0)), 10.0) == StopLossSell
    ensures HoldingAlerts("600519.SS", HoldingEntry(Some(0.0), Some(20.0), Some(0.0), Some(0.0)), 10.0) == []
  {
  }

  /** The holdings-tab status with the scan's cost guard: support breach
      first, then take-profit, then stop-loss, else hold. */
  function HoldingStatus(e: HoldingEntry, price: real): (s: Status)
    ensures var p := StatusPlan(e);
            && (s == SupportBreak <==> SupportBroken(p, price))
            && (s == TakeProfitSell <==> !SupportBroken(p, price) && ProfitReached(p, price))
            && (s == StopLossSell <==> !SupportBroken(p, price) && !ProfitReached(p, price) && LossReached(p, price))
            && (s == Hold <==> !SupportBroken(p, price) && !ProfitReached(p, price) && !LossReached(p, price))
  {
    var p := StatusPlan(e);
    if SupportBroken(p, price) then SupportBreak
    else if ProfitReached(p, price) then TakeProfitSell
    else if LossReached(p, price) then StopLossSell
    else Hold
  }

  /** With a positive cost the cost guard makes no difference: the status as
      written and the corrected status coincide. */
  lemma AsWrittenAgreesWithCost(e: HoldingEntry, price: real)
    requires StatusPlan(e).cost > 0.0
    ensures HoldingStatusAsWritten(e, price) == HoldingStatus(e, price)
  {
  }

  /** The status an alert stands for. */
  function StatusOf(k: AlertKind): Status {
    match k
    case SupportBreach(_, _) => SupportBreak
    case TakeProfit(_) => TakeProfitSell
    case StopLoss(_) => StopLossSell
    case _ => Hold
  }

  /** For a fully specified plan the corrected status is the first alert the
      scan raises for the holding, and "hold" exactly when it raises none. */
  lemma StatusIsFirstAlert(code: string, e: HoldingEntry, price: real)
    requires e.cost.Some? && e.profitTarget.Some? && e.lossLimit.Some? && e.support.Some?
    ensures var r := HoldingAlerts(code, e, price);
            (HoldingStatus(e, price) == Hold <==> r == [])
            && (r != [] ==> HoldingStatus(e, price) == StatusOf(r[0].kind))
  {
    assert ScanPlan(e) == StatusPlan(e);
  }

  // ---------------------------------------------------------------- table signal

  datatype Signal = Surge | Opportunity | NoSignal

  /** The value of the MA20 column for a row: the scan's deviation when the
      ticker was analysed, else 0. */
  function Ma20Column(analysis: map<string, Metrics.Metrics>, code: string): (d: real)
    ensures code in analysis ==> d == analysis[code].ma20
    ensures code !in analysis ==> d == 0.0
  {
    match Get(analysis, code)
    case Some(m) => m.ma20
    case None => 0.0
  }

  /** The signal rule on a strategy, a day change and an MA20 deviation. */
  function SignalFor(strategy: string, change: real, ma20: real, th: Thresholds): (s: Signal)
    ensures s == Surge <==> strategy == Config.ShortTermName && Abs(change) > th.short
    ensures s == Opportunity <==> strategy == Config.BandName && ma20 < th.band
  {
    if strategy == Config.ShortTermName && Abs(change) > th.short then Surge
    else if strategy == Config.BandName && ma20 < th.band then Opportunity
    else NoSignal
  }

  /** The strategy column as the table fills it: an entry without a strategy
      shows the bare wave emoji, which names no strategy. */
  function TableStrategyAsWritten(e: WatchEntry): string {
    e.strategy.GetOr("🌊")
  }

  /** The signal column as written: a watched ticker without a strategy never
      signals, although the scan alerts on it as a band trade. */
  function TableSignalAsWritten(e: WatchEntry, change: real, ma20: real, th: Thresholds): (s: Signal)
    ensures e.strategy.None? ==> s == NoSignal
  {
    SignalFor(TableStrategyAsWritten(e), change, ma20, th)
  }

  /** A strategy-less entry far below its MA20: the scan raises a band alert,
      the table shows no signal. */
  lemma TableMissesStrategylessBand(m: Metrics.Metrics)
    requires m.ma20 == -20.0
    ensures WatchAlert("600519.SS", WatchEntry(None), 0.0, m, Thresholds(3.0, -5.0, -8.0)).Some?
    ensures TableSignalAsWritten(WatchEntry(None), 0.0, m.ma20, Thresholds(3.0, -5.0, -8.0)) == NoSignal
  {
  }

  /** The signal column with the scan's default strategy. */
  function TableSignal(e: WatchEntry, change: real, ma20: real, th: Thresholds): (s: Signal)
    ensures e.strategy.Some? ==> s == TableSignalAsWritten(e, change, ma20, th)
  {
    SignalFor(ScanStrategy(e), change, ma20, th)
  }

  /** For an analysed ticker the table signal and the scan's watch alert agree:
      a surge exactly when the scan raises a short-term alert, an opportunity
      exactly when it raises a band alert. */
  lemma TableAgreesWithScan(code: string, e: WatchEntry, change: real,
                            analysis: map<string, Metrics.Metrics>, th: Thresholds)
    requires code in analysis
    ensures var a := WatchAlert(code, e, change, analysis[code], th);
            var s := TableSignal(e, change, Ma20Column(analysis, code), th);
            (s == Surge <==> a.Some? && a.value.kind.ShortTermMove?)
            && (s == Opportunity <==> a.Some? && a.value.kind.BandBreak?)
  {
  }
}
