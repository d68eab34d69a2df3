/** The derived-metrics engine (`get_belonging_index`, `calculate_advanced_metrics`):
    moving-average deviations, the intraday volume ratio and the premium over the
    benchmark index. The clock is a parameter: the time of day in microseconds
    since midnight. */
module Metrics {
  import opened Wrappers
  import opened Text
  import opened Floats
  import opened History


  /** A benchmark index: its ticker and display name. */
  datatype IndexRef = IndexRef(code: string, name: string)

  const SciTech: IndexRef := IndexRef("000688.SS", "科创50")
  const Composite: IndexRef := IndexRef("000001.SS", "上证指数")
  const ChiNext: IndexRef := IndexRef("399006.SZ", "创业板指")
  const Component: IndexRef := IndexRef("399001.SZ", "深证成指")
  const HkTech: IndexRef := IndexRef("03032.HK", "恒生科技")

  /** The benchmark of a ticker, by exchange suffix and board prefix. */
  function BelongingIndex(stock: string): (r: IndexRef)
    ensures r in {SciTech, Composite, ChiNext, Component, HkTech}
    ensures EndsWith(stock, ".SS") ==> (r == SciTech <==> StartsWith(stock, "688")) && (r == Composite <==> !StartsWith(stock, "688"))
    ensures EndsWith(stock, ".SZ") ==> (r == ChiNext <==> StartsWith(stock, "30")) && (r == Component <==> !StartsWith(stock, "30"))
    ensures EndsWith(stock, ".HK") ==> r == HkTech
    ensures !EndsWith(stock, ".SS") && !EndsWith(stock, ".SZ") && !EndsWith(stock, ".HK") ==> r == Composite
  {
    if EndsWith(stock, ".SS") then (if StartsWith(stock, "688") then SciTech else Composite)
    else if EndsWith(stock, ".SZ") then (if StartsWith(stock, "30") then ChiNext else Component)
    else if EndsWith(stock, ".HK") then HkTech
    else Composite
  }

  /** Every benchmark is listed on the exchange of the ticker it benchmarks. */
  lemma BenchmarkOnSameExchange(stock: string)
    ensures EndsWith(stock, ".SS") ==> EndsWith(BelongingIndex(stock).code, ".SS")
    ensures EndsWith(stock, ".SZ") ==> EndsWith(BelongingIndex(stock).code, ".SZ")
    ensures EndsWith(stock, ".HK") ==> EndsWith(BelongingIndex(stock).code, ".HK")
  {
    var c := BelongingIndex(stock).code;
    if EndsWith(stock, ".SS") {
      assert c == "000688.SS" || c == "000001.SS";
      assert c[|c| - 3..] == ".SS";
    } else if EndsWith(stock, ".SZ") {
      assert c == "399006.SZ" || c == "399001.SZ";
      assert c[|c| - 3..] == ".SZ";
    } else if EndsWith(stock, ".HK") {
      assert c == "03032.HK";
      assert c[|c| - 3..] == ".HK";
    }
  }

  // ---------------------------------------------------------------- trading clock

  const Second: nat := 1_000_000
  const Minute: nat := 60 * Second
  const DayLength: nat := 24 * 60 * Minute

  function ClockTime(h: nat, m: nat): nat {
    (h * 60 + m) * Minute
  }

  const MorningOpen: nat := ClockTime(9, 30)
  const MorningClose: nat := ClockTime(11, 30)
  const AfternoonOpen: nat := ClockTime(13, 0)
  const AfternoonClose: nat := ClockTime(15, 0)

  /** Whole minutes, with fraction, between `from` and `now`; the clock
      difference keeps whole seconds only (`timedelta.seconds`). */
  function MinutesSince(now: nat, from: nat): real
    requires from <= now
  {
    ((now - from) / Second) as real / 60.0
  }

  /** Trading minutes elapsed today on the two-session calendar, at least 1. */
  function ElapsedMinutes(now: nat): (m: real)
    requires now < DayLength
    ensures 1.0 <= m <= 240.0
    ensures MorningOpen <= now <= MorningClose ==> m <= 120.0
    ensures MorningOpen <= now < MorningOpen + Minute ==> m == 1.0
    ensures MorningOpen + Minute <= now <= MorningClose ==> m == MinutesSince(now, MorningOpen)
    ensures AfternoonOpen <= now <= AfternoonClose ==> 120.0 <= m
    ensures AfternoonOpen <= now <= AfternoonClose ==> m == 120.0 + MinutesSince(now, AfternoonOpen)
    ensures now > AfternoonClose ==> m == 240.0
    ensures now < MorningOpen || (MorningClose < now < AfternoonOpen) ==> m == 1.0
  {
    var raw :=
      if MorningOpen <= now <= MorningClose then
        MinutesSinceFloor(now, MorningOpen);
        MinutesSince(now, MorningOpen)
      else if AfternoonOpen <= now <= AfternoonClose then 120.0 + MinutesSince(now, AfternoonOpen)
      else if now > AfternoonClose then 240.0
      else 0.0;
    if raw < 1.0 then 1.0 else raw
  }

  /** A full minute has passed exactly when the minute count reaches 1. */
  lemma MinutesSinceFloor(now: nat, from: nat)
    requires from <= now
    ensures MinutesSince(now, from) >= 1.0 <==> now - from >= Minute
  {
    var secs := (now - from) / Second;
    assert now - from >= Minute <==> secs >= 60;
  }

  /** During a session or after the close. */
  predicate InSessionOrAfter(now: nat) {
    (MorningOpen <= now <= MorningClose) || AfternoonOpen <= now
  }

  lemma MinutesSinceMonotone(t1: nat, t2: nat, from: nat)
    requires from <= t1 <= t2
    ensures MinutesSince(t1, from) <= MinutesSince(t2, from)
  {
    assert (t1 - from) / Second <= (t2 - from) / Second;
  }

  /** The elapsed-minutes clock never runs backwards while the market is open
      or closed for the day. */
  lemma ElapsedMonotone(t1: nat, t2: nat)
    requires t1 <= t2 < DayLength
    requires InSessionOrAfter(t1) && InSessionOrAfter(t2)
    ensures ElapsedMinutes(t1) <= ElapsedMinutes(t2)
  {
    if t2 <= MorningClose {
      MinutesSinceMonotone(t1, t2, MorningOpen);
    } else if t1 >= AfternoonOpen && t2 <= AfternoonClose {
      MinutesSinceMonotone(t1, t2, AfternoonOpen);
    }
  }

  /** The lunch break falls outside both sessions: one microsecond after the
      morning close the clock drops from 120 minutes back to the floor of 1. */
  lemma LunchBreakResetsClock()
    ensures ElapsedMinutes(MorningClose) == 120.0
    ensures ElapsedMinutes(MorningClose + 1) == 1.0
  {
  }

  // ---------------------------------------------------------------- volume ratio

  /** The last `n` elements (`tail(n)`). */
  function Tail<T>(s: seq<T>, n: nat): (t: seq<T>)
    ensures |t| == if |s| <= n then |s| else n
    ensures t == s[|s| - |t|..]
  {
    if |s| <= n then s else s[|s| - n..]
  }

  /** Mean volume of the last five sessions. */
  function AvgVolume5(bars: seq<Bar>): real
    requires |bars| > 0
  {
    var last := Tail(bars, 5);
    RealSum(Volumes(last)) / |last| as real
  }

  /** Exact real division by a positive divisor. */
  function Quotient(a: real, e: real): (q: real)
    requires e > 0.0
    ensures q * e == a
    ensures a > 0.0 ==> q > 0.0
  {
    a / e
  }

  /** The volume an average day has traded after `minutes` of the 240
      trading minutes. */
  function ExpectedVolume(avg: real, minutes: real): (e: real)
    requires minutes > 0.0
    ensures avg > 0.0 ==> e > 0.0
  {
    ScalePositive(avg, minutes / 240.0);
    avg * (minutes / 240.0)
  }

  lemma ScalePositive(a: real, b: real)
    requires b > 0.0
    ensures a > 0.0 ==> a * b > 0.0
  {
  }

  /** Today's volume against the volume an average day (five-day average
      `avg`) would have traded after `minutes` trading minutes; 0 when
      today's volume or the average is not positive. */
  function VolumeRatio(vol: real, avg: real, minutes: real): (r: real)
    requires minutes > 0.0
    ensures vol <= 0.0 || avg <= 0.0 ==> r == 0.0
    ensures vol > 0.0 && avg > 0.0 ==> r > 0.0
  {
    if vol > 0.0 && avg > 0.0 then Quotient(vol, ExpectedVolume(avg, minutes)) else 0.0
  }

  /** A positive ratio scales the expected volume back to the actual one. */
  lemma VolumeRatioScales(vol: real, avg: real, minutes: real)
    requires minutes > 0.0 && vol > 0.0 && avg > 0.0
    ensures VolumeRatio(vol, avg, minutes) * ExpectedVolume(avg, minutes) == vol
  {
    assert VolumeRatio(vol, avg, minutes) == Quotient(vol, ExpectedVolume(avg, minutes));
  }

  /** After the close the whole day has elapsed, so the ratio is today's
      volume over the five-day average. */
  lemma VolumeRatioAfterClose(vol: real, avg: real, now: nat)
    requires AfternoonClose < now < DayLength
    requires vol > 0.0 && avg > 0.0
    ensures VolumeRatio(vol, avg, ElapsedMinutes(now)) == vol / avg
  {
  }

  // ---------------------------------------------------------------- MA deviation

  /** Percent distance of the price from a moving average; 0 when the average is
      missing (NaN) or not positive. */
  function Deviation(price: real, ma: Option<real>): (d: real)
    ensures ma.None? || ma.value <= 0.0 ==> d == 0.0
    ensures ma.Some? && ma.value > 0.0 ==> d * ma.value == (price - ma.value) * 100.0
    ensures ma.Some? && ma.value > 0.0 ==> (d > 0.0 <==> price > ma.value) && (d < 0.0 <==> price < ma.value)
  {
    if ma.Some? && ma.value > 0.0 then (price - ma.value) / ma.value * 100.0 else 0.0
  }

  // ---------------------------------------------------------------- index premium

  /** The closes of the index bars dated `b.date`, paired with `b`'s close. */
  function MatchesOf(b: Bar, index: seq<Bar>): seq<(real, real)> {
    if |index| == 0 then []
    else
      var rest := MatchesOf(b, index[..|index| - 1]);
      var x := index[|index| - 1];
      rest + (if x.date == b.date then [(b.close, x.close)] else [])
  }

  /** `p` pairs `b`'s close with the close of an index bar of the same date. */
  predicate MatchedFrom(p: (real, real), b: Bar, index: seq<Bar>) {
    p.0 == b.close && exists j :: 0 <= j < |index| && index[j].date == b.date && p.1 == index[j].close
  }

  lemma {:induction false} MatchesOfSound(b: Bar, index: seq<Bar>)
    ensures forall k :: 0 <= k < |MatchesOf(b, index)| ==> MatchedFrom(MatchesOf(b, index)[k], b, index)
  {
    if |index| > 0 {
      var init, x := index[..|index| - 1], index[|index| - 1];
      MatchesOfSound(b, init);
      var rest := MatchesOf(b, init);
      forall k | 0 <= k < |MatchesOf(b, index)|
        ensures MatchedFrom(MatchesOf(b, index)[k], b, index)
      {
        if k < |rest| {
          assert MatchedFrom(rest[k], b, init);
          var j :| 0 <= j < |init| && init[j].date == b.date && rest[k].1 == init[j].close;
          assert index[j] == init[j];
        } else {
          assert MatchesOf(b, index)[k] == (b.close, x.close) && x == index[|index| - 1];
        }
      }
    }
  }

  lemma {:induction false} MatchesOfHas(b: Bar, index: seq<Bar>, j: nat)
    requires j < |index| && index[j].date == b.date
    ensures (b.close, index[j].close) in MatchesOf(b, index)
  {
    var init, x := index[..|index| - 1], index[|index| - 1];
    var rest := MatchesOf(b, init);
    assert MatchesOf(b, index) == rest + (if x.date == b.date then [(b.close, x.close)] else []);
    if j < |init| {
      assert init[j] == index[j];
      MatchesOfHas(b, init, j);
    } else {
      assert MatchesOf(b, index)[|rest|] == (b.close, index[j].close);
    }
  }

  /** The inner join on date of the stock's and the index's (date, close)
      columns, in the stock's order: `pd.merge(..., on='date')`. */
  function DateJoin(stock: seq<Bar>, index: seq<Bar>): (ps: seq<(real, real)>)
    ensures |stock| == 0 || |index| == 0 ==> ps == []
  {
    if |stock| == 0 then []
    else DateJoin(stock[..|stock| - 1], index) + MatchesOf(stock[|stock| - 1], index)
  }

  /** The stock bar and index bar behind a joined row. */
  predicate JoinedFrom(p: (real, real), stock: seq<Bar>, index: seq<Bar>) {
    exists i, j :: 0 <= i < |stock| && 0 <= j < |index|
      && stock[i].date == index[j].date && p == (stock[i].close, index[j].close)
  }

  /** Every joined row pairs a stock close and an index close of the same date. */
  lemma {:induction false} DateJoinSound(stock: seq<Bar>, index: seq<Bar>)
    ensures forall k :: 0 <= k < |DateJoin(stock, index)| ==> JoinedFrom(DateJoin(stock, index)[k], stock, index)
  {
    if |stock| > 0 {
      var init := stock[..|stock| - 1];
      var b := stock[|stock| - 1];
      DateJoinSound(init, index);
      var a := DateJoin(init, index);
      var ms := MatchesOf(b, index);
      assert DateJoin(stock, index) == a + ms;
      forall k | 0 <= k < |a| + |ms|
        ensures JoinedFrom((a + ms)[k], stock, index)
      {
        if k < |a| {
          assert JoinedFrom(a[k], init, index);
          var i, j :| 0 <= i < |init| && 0 <= j < |index|
            && init[i].date == index[j].date && a[k] == (init[i].close, index[j].close);
          assert stock[i] == init[i];
        } else {
          MatchesOfSound(b, index);
          assert MatchedFrom(ms[k - |a|], b, index);
          var j :| 0 <= j < |index| && index[j].date == b.date && ms[k - |a|].1 == index[j].close;
          assert ms[k - |a|] == (stock[|stock| - 1].close, index[j].close);
        }
      }
    }
  }

  /** One pair of same-date stock and index bars appears in the join. */
  lemma {:induction false} DateJoinHas(stock: seq<Bar>, index: seq<Bar>, i: nat, j: nat)
    requires i < |stock| && j < |index| && stock[i].date == index[j].date
    ensures (stock[i].close, index[j].close) in DateJoin(stock, index)
  {
    var init := stock[..|stock| - 1];
    var last := stock[|stock| - 1];
    var p := (stock[i].close, index[j].close);
    assert DateJoin(stock, index) == DateJoin(init, index) + MatchesOf(last, index);
    if i < |init| {
      assert stock[i] == init[i];
      DateJoinHas(init, index, i, j);
      assert p in DateJoin(init, index);
    } else {
      MatchesOfHas(last, index, j);
    }
  }

  /** Every pair of same-date stock and index bars appears in the join. */
  lemma DateJoinComplete(stock: seq<Bar>, index: seq<Bar>)
    ensures forall i, j :: 0 <= i < |stock| && 0 <= j < |index| && stock[i].date == index[j].date ==>
              (stock[i].close, index[j].close) in DateJoin(stock, index)
  {
    forall i, j | 0 <= i < |stock| && 0 <= j < |index| && stock[i].date == index[j].date
      ensures (stock[i].close, index[j].close) in DateJoin(stock, index)
    {
      DateJoinHas(stock, index, i, j);
    }
  }

  /** No two index bars share a date, as in a daily series. */
  predicate DistinctDates(index: seq<Bar>) {
    forall j, l :: 0 <= j < l < |index| ==> index[j].date != index[l].date
  }

  /** The position of the last index bar dated `d`, if there is one. */
  function DatePos(d: string, index: seq<Bar>): (r: Option<nat>)
    ensures r.Some? ==> r.value < |index| && index[r.value].date == d
    ensures r.None? ==> forall j :: 0 <= j < |index| ==> index[j].date != d
  {
    if |index| == 0 then None
    else if index[|index| - 1].date == d then Some(|index| - 1)
    else DatePos(d, index[..|index| - 1])
  }

  /** With distinct index dates a stock bar joins at most one index bar: the
      one `DatePos` finds. */
  lemma {:induction false} MatchesOfDistinct(b: Bar, index: seq<Bar>)
    requires DistinctDates(index)
    ensures MatchesOf(b, index) ==
      (if DatePos(b.date, index).Some? then [(b.close, index[DatePos(b.date, index).value].close)] else [])
  {
    if |index| > 0 {
      var n := |index| - 1;
      var init, x := index[..n], index[n];
      assert DistinctDates(init) by {
        forall j, l | 0 <= j < l < |init| ensures init[j].date != init[l].date {
          assert init[j] == index[j] && init[l] == index[l];
        }
      }
      MatchesOfDistinct(b, init);
      if x.date == b.date {
        forall j | 0 <= j < |init| ensures init[j].date != b.date {
          assert init[j] == index[j];
        }
        assert MatchesOf(b, init) == [];
      } else {
        var p := DatePos(b.date, init);
        if p.Some? {
          assert init[p.value] == index[p.value];
        }
      }
    }
  }

  /** The positions of the stock bars that have an index bar of the same date. */
  function JoinIndices(stock: seq<Bar>, index: seq<Bar>): (ks: seq<nat>)
    ensures forall k :: 0 <= k < |ks| ==> ks[k] < |stock| && DatePos(stock[ks[k]].date, index).Some?
    ensures forall k, l :: 0 <= k < l < |ks| ==> ks[k] < ks[l]
    ensures forall i :: 0 <= i < |stock| && DatePos(stock[i].date, index).Some? ==> i in ks
  {
    if |stock| == 0 then []
    else
      var n := |stock| - 1;
      JoinIndices(stock[..n], index) + (if DatePos(stock[n].date, index).Some? then [n] else [])
  }

  /** With distinct index dates the join has one row per stock bar that has a
      same-date index bar, in the stock's order: row `k` pairs the close of
      stock bar `JoinIndices[k]` with the close of the index bar of its date. */
  lemma {:induction false} DateJoinIndexed(stock: seq<Bar>, index: seq<Bar>)
    requires DistinctDates(index)
    ensures |DateJoin(stock, index)| == |JoinIndices(stock, index)|
    ensures forall k :: 0 <= k < |DateJoin(stock, index)| ==>
      var i := JoinIndices(stock, index)[k];
      DateJoin(stock, index)[k] == (stock[i].close, index[DatePos(stock[i].date, index).value].close)
  {
    if |stock| > 0 {
      var n := |stock| - 1;
      var init := stock[..n];
      DateJoinIndexed(init, index);
      MatchesOfDistinct(stock[n], index);
      var a, ks := DateJoin(init, index), JoinIndices(init, index);
      assert DateJoin(stock, index) == a + MatchesOf(stock[n], index);
      assert JoinIndices(stock, index) == ks + (if DatePos(stock[n].date, index).Some? then [n] else []);
      forall k | 0 <= k < |a|
        ensures init[ks[k]] == stock[ks[k]]
      {
      }
    }
  }

  const PremiumWindow: nat := 250

  /** The stock-to-index close ratio of each joined row. */
  function Ratios(w: seq<(real, real)>): (rs: seq<Float>)
    ensures |rs| == |w|
  {
    seq(|w|, k requires 0 <= k < |w| => Div(Finite(w[k].0), Finite(w[k].1)))
  }

  /** The last 250 rows of the date join. */
  function JoinWindow(stock: seq<Bar>, index: seq<Bar>): seq<(real, real)> {
    Tail(DateJoin(stock, index), PremiumWindow)
  }

  /** The index-implied fair price: the index's latest close times the mean
      stock/index ratio of the window. */
  function FairValue(lastClose: real, w: seq<(real, real)>): Float {
    Mul(Finite(lastClose), MeanSkipNaN(Ratios(w)))
  }

  /** Percent distance of `price` from `fair`, in numpy's float arithmetic. */
  function PercentFrom(price: real, fair: Float): Float {
    Mul(Div(Sub(Finite(price), fair), fair), Finite(100.0))
  }

  /** Against a finite, non-zero fair price the float arithmetic is exact. */
  lemma PercentFromFinite(price: real, fair: real)
    requires fair != 0.0
    ensures PercentFrom(price, Finite(fair)) == Finite((price - fair) / fair * 100.0)
  {
  }

  /** The percent premium of the price over the index-implied fair price,
      from the last 250 sessions on which both traded. 0 when the index has
      no history or no dates join. */
  function IndexPremium(price: real, stock: seq<Bar>, index: seq<Bar>): (r: Float)
    ensures |index| == 0 || |DateJoin(stock, index)| == 0 ==> r == Finite(0.0)
  {
    if |index| == 0 then Finite(0.0)
    else
      var w := JoinWindow(stock, index);
      if |w| == 0 then Finite(0.0)
      else PercentFrom(price, FairValue(index[|index| - 1].close, w))
  }

  /** No row of the window has a zero index close. */
  predicate IndexClosesNonZero(w: seq<(real, real)>) {
    forall k :: 0 <= k < |w| ==> w[k].1 != 0.0
  }

  /** The stock/index close ratio of each joined row, in exact arithmetic. */
  function RatioValues(w: seq<(real, real)>): (vs: seq<real>)
    requires IndexClosesNonZero(w)
    ensures |vs| == |w|
  {
    seq(|w|, k requires 0 <= k < |w| => w[k].0 / w[k].1)
  }

  /** The exact mean ratio of a window whose index closes are non-zero. */
  function MeanRatio(w: seq<(real, real)>): real
    requires |w| > 0 && IndexClosesNonZero(w)
  {
    RealSum(RatioValues(w)) / |w| as real
  }

  /** The ratios of a window whose index closes are non-zero are finite. */
  lemma RatiosFinite(w: seq<(real, real)>)
    requires IndexClosesNonZero(w)
    ensures AllFinite(Ratios(w))
    ensures Values(Ratios(w)) == RatioValues(w)
  {
  }

  /** With non-zero index closes the fair value is the latest index close
      times the exact mean ratio. */
  lemma FairValueExact(lastClose: real, w: seq<(real, real)>)
    requires |w| > 0 && IndexClosesNonZero(w)
    ensures FairValue(lastClose, w) == Finite(lastClose * MeanRatio(w))
  {
    RatiosFinite(w);
    MeanOfFinite(Ratios(w));
    assert MeanSkipNaN(Ratios(w)) == Finite(MeanRatio(w));
  }

  /** With non-zero index closes and a non-zero fair price, the premium
      against a window is the percent distance from the latest index close
      times the mean stock/index ratio. */
  lemma PremiumFormula(price: real, c: real, w: seq<(real, real)>)
    requires |w| > 0 && IndexClosesNonZero(w) && c * MeanRatio(w) != 0.0
    ensures PercentFrom(price, FairValue(c, w))
            == Finite((price - c * MeanRatio(w)) / (c * MeanRatio(w)) * 100.0)
  {
    FairValueExact(c, w);
    PercentFromFinite(price, c * MeanRatio(w));
  }

  /** The premium is taken against the last 250 joined rows and the latest
      index close. */
  lemma IndexPremiumUnfold(price: real, stock: seq<Bar>, index: seq<Bar>)
    requires |index| > 0 && |JoinWindow(stock, index)| > 0
    ensures IndexPremium(price, stock, index)
            == PercentFrom(price, FairValue(index[|index| - 1].close, JoinWindow(stock, index)))
  {
  }

  /** With index history, at least one joined date, non-zero index closes in
      the window and a non-zero fair price, the premium is the exact percent
      distance of the price from the latest index close times the mean
      stock/index ratio of the last 250 joined rows. */
  lemma IndexPremiumClosedForm(price: real, stock: seq<Bar>, index: seq<Bar>, c: real, w: seq<(real, real)>)
    requires |index| > 0 && c == index[|index| - 1].close && w == JoinWindow(stock, index)
    requires |w| > 0 && IndexClosesNonZero(w) && c * MeanRatio(w) != 0.0
    ensures IndexPremium(price, stock, index) == Finite((price - c * MeanRatio(w)) / (c * MeanRatio(w)) * 100.0)
  {
    IndexPremiumUnfold(price, stock, index);
    PremiumFormula(price, c, w);
  }

  lemma PremiumZeroFair(price: real, stock: seq<Bar>, index: seq<Bar>)
    requires price > 0.0 && |index| > 0
    requires |JoinWindow(stock, index)| > 0 && IndexClosesNonZero(JoinWindow(stock, index))
    requires index[|index| - 1].close == 0.0
    ensures IndexPremium(price, stock, index) == PosInf
  {
    IndexPremiumUnfold(price, stock, index);
    FairValueExact(0.0, JoinWindow(stock, index));
    assert 0.0 * MeanRatio(JoinWindow(stock, index)) == 0.0;
  }

  /** With a positive price the premium is never minus infinity, so it can
      only fall below a threshold by being a finite number below it. */
  lemma PremiumNotNegInf(price: real, stock: seq<Bar>, index: seq<Bar>)
    requires price > 0.0
    ensures !IndexPremium(price, stock, index).NegInf?
  {
  }

  // ---------------------------------------------------------------- the record

  /** `calculate_advanced_metrics`' result. */
  datatype Metrics = Metrics(
    ma10: real, ma20: real, ma30: real, ma60: real,
    volumeRatio: real,
    premium: Float,
    indexName: string,
    indexCode: string,
    history: seq<Bar>)

  /** The four deviations, the volume ratio and the premium are all 0. */
  predicate AllZero(m: Metrics) {
    m.ma10 == 0.0 && m.ma20 == 0.0 && m.ma30 == 0.0 && m.ma60 == 0.0
    && m.volumeRatio == 0.0 && m.premium == Finite(0.0)
  }

  function CalculateAdvancedMetrics(code: string, price: real, vol: real,
                                    source: map<string, seq<Bar>>, now: nat): (m: Metrics)
    requires now < DayLength
    ensures m.indexCode == BelongingIndex(code).code && m.indexName == BelongingIndex(code).name
    ensures m.history == GetHistory(code, source)
    ensures |m.history| == 0 ==> AllZero(m)
    ensures |m.history| > 0 ==>
              var cs := Closes(m.history);
              m.ma10 == Deviation(price, LastMa(cs, 10)) && m.ma20 == Deviation(price, LastMa(cs, 20))
              && m.ma30 == Deviation(price, LastMa(cs, 30)) && m.ma60 == Deviation(price, LastMa(cs, 60))
              && m.volumeRatio == VolumeRatio(vol, AvgVolume5(m.history), ElapsedMinutes(now))
              && m.premium == IndexPremium(price, m.history, GetHistory(m.indexCode, source))
  {
    var bars := GetHistory(code, source);
    var idx := BelongingIndex(code);
    if |bars| == 0 then
      Metrics(0.0, 0.0, 0.0, 0.0, 0.0, Finite(0.0), idx.name, idx.code, [])
    else
      var cs := Closes(bars);
      Metrics(
        Deviation(price, LastMa(cs, 10)), Deviation(price, LastMa(cs, 20)),
        Deviation(price, LastMa(cs, 30)), Deviation(price, LastMa(cs, 60)),
        VolumeRatio(vol, AvgVolume5(bars), ElapsedMinutes(now)),
        IndexPremium(price, bars, GetHistory(idx.code, source)),
        idx.name, idx.code, bars)
  }

  /** A history shorter than ten sessions also gives four zero deviations, so
      zero deviations do not imply an empty history. */
  lemma ShortHistoryZeroDeviations(code: string, price: real, vol: real,
                                   source: map<string, seq<Bar>>, now: nat)
    requires now < DayLength
    requires 0 < |GetHistory(code, source)| < 10
    ensures var m := CalculateAdvancedMetrics(code, price, vol, source, now);
            |m.history| > 0 && m.ma10 == 0.0 && m.ma20 == 0.0 && m.ma30 == 0.0 && m.ma60 == 0.0
  {
  }

  /** A Hong Kong ticker gets the all-zero record under the Hang Seng Tech index. */
  lemma HkMetricsAllZero(t: string, price: real, vol: real, source: map<string, seq<Bar>>, now: nat)
    requires Utils.ValidTicker(t) && Utils.TickerExchange(t) == "HK"
    requires now < DayLength
    ensures var m := CalculateAdvancedMetrics(t, price, vol, source, now);
            AllZero(m) && m.history == [] && m.indexCode == HkTech.code
  {
    HkHasNoHistory(t, source);
    Utils.ValidTickerParts(t);
    var code := Utils.TickerCode(t);
    assert t == code + "." + "HK";
    assert t[|t| - 3..] == ".HK";
  }
}
