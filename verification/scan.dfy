/** The "full scan" button: every watched or held ticker is quoted, analysed
    when it has a positive price, and run through the watch and holding
    rules. The responses, histories and clock the scan would fetch are
    parameters, and so is the order in which Python happens to enumerate the
    ticker set. */
module Scan {
  import opened Wrappers
  import opened Quotes
  import opened History
  import opened Metrics
  import opened Alerts

  /** What the scan reads from the outside world: the quote response per
      Sina symbol, the daily bars per Baostock code and the time of day. One
      snapshot serves the whole scan. */
  datatype Feed = Feed(responses: map<string, string>, history: map<string, seq<Bar>>, now: TimeOfDay)

  /** A time of day, in microseconds since midnight. */
  type TimeOfDay = t: nat | t < DayLength witness 0

  /** The tickers the scan visits: the watch list and the holdings together. */
  function Universe(watch: map<string, WatchEntry>, holding: map<string, HoldingEntry>): set<string> {
    watch.Keys + holding.Keys
  }

  /** A listing of `u` without repetitions. */
  predicate Enumerates(order: seq<string>, u: set<string>) {
    (forall i, j :: 0 <= i < j < |order| ==> order[i] != order[j])
    && (forall i :: 0 <= i < |order| ==> order[i] in u)
    && (forall c :: c in u ==> c in order)
  }

  /** The quote of a ticker has a positive price, so the scan analyses it. */
  predicate Priced(code: string, feed: Feed) {
    RealtimeSina(code, feed.responses).price > 0.0
  }

  /** The metrics the scan stores for a priced ticker. */
  function MetricsOf(code: string, feed: Feed): Metrics
  {
    var q := RealtimeSina(code, feed.responses);
    CalculateAdvancedMetrics(code, q.price, q.volume, feed.history, feed.now)
  }

  datatype TickerResult = TickerResult(metrics: Option<Metrics>, alerts: seq<Alert>)

  /** One iteration of the scan loop. */
  function ScanTicker(code: string, watch: map<string, WatchEntry>, holding: map<string, HoldingEntry>,
                      feed: Feed, th: Thresholds): (r: TickerResult)
    ensures !Priced(code, feed) ==> r.metrics.None? && r.alerts == []
    ensures Priced(code, feed) ==> r.metrics == Some(MetricsOf(code, feed))
    ensures forall a :: a in r.alerts ==> a.code == code
    ensures code !in watch && code !in holding ==> r.alerts == []
  {
    var q := RealtimeSina(code, feed.responses);
    if q.price > 0.0 then
      var m := MetricsOf(code, feed);
      var w := if code in watch then WatchAlert(code, watch[code], q.changePct, m, th).ToSeq() else [];
      var h := if code in holding then HoldingAlerts(code, holding[code], q.price) else [];
      TickerResult(Some(m), w + h)
    else TickerResult(None, [])
  }

  /** A priced ticker that is held but not watched raises exactly its
      holding alerts, in the holding rules' order. */
  lemma HoldingOnlyAlerts(code: string, watch: map<string, WatchEntry>, holding: map<string, HoldingEntry>,
                          feed: Feed, th: Thresholds)
    requires code !in watch && code in holding && Priced(code, feed)
    ensures ScanTicker(code, watch, holding, feed, th).alerts
            == HoldingAlerts(code, holding[code], RealtimeSina(code, feed.responses).price)
  {
  }

  /** A row of the holdings tab: only a priced holding is listed, with the
      status as the tab computes it. */
  function StatusRow(code: string, e: HoldingEntry, feed: Feed): (r: Option<Status>)
    ensures r.Some? <==> Priced(code, feed)
    ensures r.Some? ==> r.value == HoldingStatusAsWritten(e, RealtimeSina(code, feed.responses).price)
  {
    var p := RealtimeSina(code, feed.responses).price;
    if p > 0.0 then Some(HoldingStatusAsWritten(e, p)) else None
  }

  /** For a holding with a cost, the tab's status is the corrected status,
      and so agrees with the alerts the scan raises for it. */
  lemma StatusRowWithCost(code: string, e: HoldingEntry, feed: Feed)
    requires Priced(code, feed) && StatusPlan(e).cost > 0.0
    ensures StatusRow(code, e, feed) == Some(HoldingStatus(e, RealtimeSina(code, feed.responses).price))
  {
    AsWrittenAgreesWithCost(e, RealtimeSina(code, feed.responses).price);
  }

  /** A priced ticker raises its watch alert, if it is watched and the rule
      fires, followed by its holding alerts, if it is held. */
  lemma PricedAlerts(code: string, watch: map<string, WatchEntry>, holding: map<string, HoldingEntry>,
                     feed: Feed, th: Thresholds)
    requires Priced(code, feed)
    ensures var q := RealtimeSina(code, feed.responses);
            ScanTicker(code, watch, holding, feed, th).alerts
            == (if code in watch then WatchAlert(code, watch[code], q.changePct, MetricsOf(code, feed), th).ToSeq() else [])
               + (if code in holding then HoldingAlerts(code, holding[code], q.price) else [])
  {
  }

  /** A watched, priced ticker whose watch rule fires has that alert first
      among the alerts it raises. */
  lemma WatchAlertReachesScan(code: string, watch: map<string, WatchEntry>, holding: map<string, HoldingEntry>,
                              feed: Feed, th: Thresholds)
    requires Priced(code, feed) && code in watch
    requires WatchAlert(code, watch[code], RealtimeSina(code, feed.responses).changePct, MetricsOf(code, feed), th).Some?
    ensures var a := WatchAlert(code, watch[code], RealtimeSina(code, feed.responses).changePct, MetricsOf(code, feed), th).value;
            |ScanTicker(code, watch, holding, feed, th).alerts| > 0 && ScanTicker(code, watch, holding, feed, th).alerts[0] == a
  {
    PricedAlerts(code, watch, holding, feed, th);
  }

  datatype ScanResult = ScanResult(alerts: seq<Alert>, analysis: map<string, Metrics>)

  /** The scan loop over the tickers in `order`, starting from an empty analysis. */
  function ScanOver(order: seq<string>, watch: map<string, WatchEntry>, holding: map<string, HoldingEntry>,
                    feed: Feed, th: Thresholds): ScanResult
  {
    if |order| == 0 then ScanResult([], map[])
    else
      var r := ScanOver(order[..|order| - 1], watch, holding, feed, th);
      var code := order[|order| - 1];
      var t := ScanTicker(code, watch, holding, feed, th);
      ScanResult(r.alerts + t.alerts,
                 if t.metrics.Some? then r.analysis[code := t.metrics.value] else r.analysis)
  }

  /** The analysis gathered along a listing: each ticker that has a value
      is stored under its code. */
  function AnalysisAlong<T>(order: seq<string>, g: string -> Option<T>): map<string, T> {
    if |order| == 0 then map[]
    else
      var a := AnalysisAlong(order[..|order| - 1], g);
      var code := order[|order| - 1];
      if g(code).Some? then a[code := g(code).value] else a
  }

  lemma {:induction false} AnalysisAlongContents<T>(order: seq<string>, g: string -> Option<T>)
    ensures forall c :: c in AnalysisAlong(order, g) <==> c in order && g(c).Some?
    ensures forall c :: c in AnalysisAlong(order, g) ==> g(c).Some? && AnalysisAlong(order, g)[c] == g(c).value
  {
    if |order| > 0 {
      var init := order[..|order| - 1];
      AnalysisAlongContents(init, g);
      assert order == init + [order[|order| - 1]];
    }
  }

  /** One iteration's metrics, as a function of the ticker. */
  function TickerMetrics(watch: map<string, WatchEntry>, holding: map<string, HoldingEntry>,
                         feed: Feed, th: Thresholds): string -> Option<Metrics> {
    code => ScanTicker(code, watch, holding, feed, th).metrics
  }

  lemma {:induction false} ScanOverAnalysisAlong(order: seq<string>, watch: map<string, WatchEntry>,
                                                 holding: map<string, HoldingEntry>, feed: Feed, th: Thresholds)
    ensures ScanOver(order, watch, holding, feed, th).analysis == AnalysisAlong(order, TickerMetrics(watch, holding, feed, th))
  {
    if |order| > 0 {
      var init, code := order[..|order| - 1], order[|order| - 1];
      var g := TickerMetrics(watch, holding, feed, th);
      ScanOverAnalysisAlong(init, watch, holding, feed, th);
      var a := ScanOver(init, watch, holding, feed, th).analysis;
      var m := ScanTicker(code, watch, holding, feed, th).metrics;
      assert g(code) == m;
      assert AnalysisAlong(order, g) == if m.Some? then a[code := m.value] else a;
    }
  }

  /** The analysis holds exactly the priced tickers of the listing, each with
      its own metrics. */
  lemma ScanOverAnalysis(order: seq<string>, watch: map<string, WatchEntry>,
                         holding: map<string, HoldingEntry>, feed: Feed, th: Thresholds)
    ensures var a := ScanOver(order, watch, holding, feed, th).analysis;
            (forall c :: c in a <==> c in order && Priced(c, feed))
            && (forall c :: c in a ==> a[c] == MetricsOf(c, feed))
  {
    var g := TickerMetrics(watch, holding, feed, th);
    ScanOverAnalysisAlong(order, watch, holding, feed, th);
    AnalysisAlongContents(order, g);
    forall c ensures g(c).Some? <==> Priced(c, feed)
      ensures g(c).Some? ==> g(c).value == MetricsOf(c, feed) {
      assert g(c) == ScanTicker(c, watch, holding, feed, th).metrics;
    }
  }

  /** Every alert names a priced ticker of the listing. */
  lemma {:induction false} ScanOverAlerts(order: seq<string>, watch: map<string, WatchEntry>,
                                          holding: map<string, HoldingEntry>, feed: Feed, th: Thresholds)
    ensures forall a :: a in ScanOver(order, watch, holding, feed, th).alerts ==>
              a.code in order && Priced(a.code, feed)
  {
    if |order| > 0 {
      var init := order[..|order| - 1];
      ScanOverAlerts(init, watch, holding, feed, th);
      assert order == init + [order[|order| - 1]];
    }
  }

  /** The alerts of each ticker of a listing, one ticker after another. */
  function AlertsAlong(order: seq<string>, f: string -> seq<Alert>): seq<Alert> {
    if |order| == 0 then []
    else AlertsAlong(order[..|order| - 1], f) + f(order[|order| - 1])
  }

  lemma {:induction false} AlertsAlongAppend(o1: seq<string>, o2: seq<string>, f: string -> seq<Alert>)
    ensures AlertsAlong(o1 + o2, f) == AlertsAlong(o1, f) + AlertsAlong(o2, f)
    decreases |o2|
  {
    if |o2| > 0 {
      var init := o2[..|o2| - 1];
      AlertsAlongAppend(o1, init, f);
      assert (o1 + o2)[..|o1 + o2| - 1] == o1 + init;
    } else {
      assert o1 + o2 == o1;
    }
  }

  /** Taking the last element of `o1` out of a permutation `o2` of it leaves
      a permutation of the rest. */
  lemma RemoveLast(o1: seq<string>, o2: seq<string>) returns (a: seq<string>, b: seq<string>)
    requires |o1| > 0 && multiset(o1) == multiset(o2)
    ensures o2 == a + [o1[|o1| - 1]] + b
    ensures multiset(o1[..|o1| - 1]) == multiset(a + b)
  {
    var init := o1[..|o1| - 1];
    var x := o1[|o1| - 1];
    assert o1 == init + [x];
    assert x in multiset(o2);
    var i :| 0 <= i < |o2| && o2[i] == x;
    a, b := o2[..i], o2[i + 1..];
    assert o2 == a + [x] + b;
    assert multiset(a + b) == multiset(a) + multiset(b);
    assert multiset(init) == multiset(o1) - multiset{x};
  }

  /** Permuting a listing permutes the alerts gathered along it. */
  lemma {:induction false} AlertsAlongPermutation(o1: seq<string>, o2: seq<string>, f: string -> seq<Alert>)
    requires multiset(o1) == multiset(o2)
    ensures multiset(AlertsAlong(o1, f)) == multiset(AlertsAlong(o2, f))
    decreases |o1|
  {
    if |o1| == 0 {
      assert o2 == [];
    } else {
      var init := o1[..|o1| - 1];
      var x := o1[|o1| - 1];
      var a, b := RemoveLast(o1, o2);
      AlertsAlongPermutation(init, a + b, f);
      var fa, fb := AlertsAlong(a, f), AlertsAlong(b, f);
      AlertsAlongAppend(a, b, f);
      AlertsAlongAppend(a + [x], b, f);
      AlertsAlongAppend(a, [x], f);
      assert AlertsAlong([x], f) == f(x) by { assert [x][..0] == []; }
      assert AlertsAlong(o2, f) == fa + f(x) + fb;
      assert AlertsAlong(o1, f) == AlertsAlong(init, f) + f(x);
      assert multiset(fa + f(x) + fb) == multiset(fa) + multiset(f(x)) + multiset(fb);
    }
  }

  /** One iteration's alerts, as a function of the ticker. */
  function TickerAlerts(watch: map<string, WatchEntry>, holding: map<string, HoldingEntry>,
                        feed: Feed, th: Thresholds): string -> seq<Alert> {
    code => ScanTicker(code, watch, holding, feed, th).alerts
  }

  /** The scan's alerts are each visited ticker's alerts in visiting order. */
  lemma {:induction false} ScanOverAlong(order: seq<string>, watch: map<string, WatchEntry>,
                                         holding: map<string, HoldingEntry>, feed: Feed, th: Thresholds)
    ensures ScanOver(order, watch, holding, feed, th).alerts == AlertsAlong(order, TickerAlerts(watch, holding, feed, th))
  {
    if |order| > 0 {
      ScanOverAlong(order[..|order| - 1], watch, holding, feed, th);
    }
  }

  /** Scanning two listings one after the other raises the alerts of each in turn. */
  lemma ScanOverAppend(o1: seq<string>, o2: seq<string>, watch: map<string, WatchEntry>,
                       holding: map<string, HoldingEntry>, feed: Feed, th: Thresholds)
    ensures ScanOver(o1 + o2, watch, holding, feed, th).alerts
            == ScanOver(o1, watch, holding, feed, th).alerts + ScanOver(o2, watch, holding, feed, th).alerts
  {
    ScanOverAlong(o1 + o2, watch, holding, feed, th);
    ScanOverAlong(o1, watch, holding, feed, th);
    ScanOverAlong(o2, watch, holding, feed, th);
    AlertsAlongAppend(o1, o2, TickerAlerts(watch, holding, feed, th));
  }

  /** The alerts raised do not depend on the order the tickers are visited in,
      up to their order in the list. */
  lemma ScanOverPermutation(o1: seq<string>, o2: seq<string>, watch: map<string, WatchEntry>,
                            holding: map<string, HoldingEntry>, feed: Feed, th: Thresholds)
    requires multiset(o1) == multiset(o2)
    ensures multiset(ScanOver(o1, watch, holding, feed, th).alerts) == multiset(ScanOver(o2, watch, holding, feed, th).alerts)
  {
    ScanOverAlong(o1, watch, holding, feed, th);
    ScanOverAlong(o2, watch, holding, feed, th);
    AlertsAlongPermutation(o1, o2, TickerAlerts(watch, holding, feed, th));
  }

  /** Every alert a listed ticker raises is among the alerts gathered along the listing. */
  lemma {:induction false} AlertsAlongHas(order: seq<string>, f: string -> seq<Alert>, c: string)
    requires c in order
    ensures forall a :: a in f(c) ==> a in AlertsAlong(order, f)
  {
    var init, last := order[..|order| - 1], order[|order| - 1];
    if last != c {
      assert order == init + [last];
      AlertsAlongHas(init, f, c);
    }
  }

  /** The scan over one listing of the watch list and holdings. */
  function StrategyScan(order: seq<string>, watch: map<string, WatchEntry>, holding: map<string, HoldingEntry>,
                        feed: Feed, th: Thresholds): (r: ScanResult)
    requires Enumerates(order, Universe(watch, holding))
    ensures forall c :: c in r.analysis <==> (c in watch || c in holding) && Priced(c, feed)
    ensures forall c :: c in r.analysis ==> r.analysis[c] == MetricsOf(c, feed)
    ensures forall a :: a in r.alerts ==> (a.code in watch || a.code in holding) && Priced(a.code, feed)
  {
    ScanOverAnalysis(order, watch, holding, feed, th);
    ScanOverAlerts(order, watch, holding, feed, th);
    ScanOver(order, watch, holding, feed, th)
  }

  /** Two listings without repetition of the same set are permutations of each other. */
  lemma {:induction false} EnumerationsArePermutations(o1: seq<string>, o2: seq<string>, u: set<string>)
    requires Enumerates(o1, u) && Enumerates(o2, u)
    ensures multiset(o1) == multiset(o2)
  {
    DistinctMultiset(o1);
    DistinctMultiset(o2);
    forall c ensures multiset(o1)[c] == multiset(o2)[c] {
      if c in u {
        assert c in multiset(o1) && c in multiset(o2);
      } else {
        assert c !in multiset(o1) && c !in multiset(o2);
      }
    }
  }

  /** Each element of a listing without repetition occurs in it once. */
  lemma {:induction false} DistinctMultiset(o: seq<string>)
    requires forall i, j :: 0 <= i < j < |o| ==> o[i] != o[j]
    ensures forall c :: multiset(o)[c] <= 1
  {
    if |o| > 0 {
      var init := o[..|o| - 1];
      DistinctMultiset(init);
      assert o == init + [o[|o| - 1]];
      assert o[|o| - 1] !in init;
    }
  }

  /** Whatever order the ticker set is enumerated in, the scan produces the
      same analysis and the same alerts up to their order. */
  lemma ScanOrderIndependent(o1: seq<string>, o2: seq<string>, watch: map<string, WatchEntry>,
                             holding: map<string, HoldingEntry>, feed: Feed, th: Thresholds)
    requires Enumerates(o1, Universe(watch, holding)) && Enumerates(o2, Universe(watch, holding))
    ensures StrategyScan(o1, watch, holding, feed, th).analysis == StrategyScan(o2, watch, holding, feed, th).analysis
    ensures multiset(StrategyScan(o1, watch, holding, feed, th).alerts)
            == multiset(StrategyScan(o2, watch, holding, feed, th).alerts)
  {
    EnumerationsArePermutations(o1, o2, Universe(watch, holding));
    ScanOverPermutation(o1, o2, watch, holding, feed, th);
  }

  /** No alert is lost: a priced ticker on either list has its watch alert,
      when the rule fires, and each of its holding alerts in the scan's
      alerts. */
  lemma PricedAlertsInScan(order: seq<string>, watch: map<string, WatchEntry>,
                           holding: map<string, HoldingEntry>, feed: Feed, th: Thresholds, code: string)
    requires Enumerates(order, Universe(watch, holding))
    requires Priced(code, feed)
    ensures var q := RealtimeSina(code, feed.responses);
            var w := if code in watch then WatchAlert(code, watch[code], q.changePct, MetricsOf(code, feed), th) else None;
            var r := StrategyScan(order, watch, holding, feed, th).alerts;
            (w.Some? ==> w.value in r)
            && (code in holding ==> forall a :: a in HoldingAlerts(code, holding[code], q.price) ==> a in r)
  {
    var f := TickerAlerts(watch, holding, feed, th);
    if code in watch || code in holding {
      assert code in order;
      PricedAlerts(code, watch, holding, feed, th);
      ScanOverAlong(order, watch, holding, feed, th);
      AlertsAlongHas(order, f, code);
      assert f(code) == ScanTicker(code, watch, holding, feed, th).alerts;
    }
  }
}
