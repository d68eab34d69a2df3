/** The history provider (`get_history_data`): daily bars for a ticker, with the
    trailing simple moving averages over 10, 20, 30 and 60 sessions. The query to
    the history service and its cache are left out; what the service returned is
    a parameter. */
module History {
  import opened Wrappers
  import opened Text
  import opened Utils
  import Floats
  import Decimal

  /** One daily bar. Open, high and low are only stored with the metrics record
      and never read back, so they are not modelled. */
  datatype Bar = Bar(date: string, close: real, volume: real)

  function Closes(bars: seq<Bar>): (cs: seq<real>)
    ensures |cs| == |bars|
    ensures forall i :: 0 <= i < |bars| ==> cs[i] == bars[i].close
  {
    seq(|bars|, i requires 0 <= i < |bars| => bars[i].close)
  }

  function Volumes(bars: seq<Bar>): (vs: seq<real>)
    ensures |vs| == |bars|
    ensures forall i :: 0 <= i < |bars| ==> vs[i] == bars[i].volume
  {
    seq(|bars|, i requires 0 <= i < |bars| => bars[i].volume)
  }

  lemma {:induction false} SumFront(xs: seq<real>)
    requires |xs| > 0
    ensures Floats.RealSum(xs) == xs[0] + Floats.RealSum(xs[1..])
    decreases |xs|
  {
    if |xs| > 1 {
      SumFront(xs[..|xs| - 1]);
      assert xs[..|xs| - 1][1..] == xs[1..][..|xs| - 2];
    }
  }

  lemma {:induction false} SumPositive(xs: seq<real>)
    requires |xs| > 0
    requires forall i :: 0 <= i < |xs| ==> xs[i] > 0.0
    ensures Floats.RealSum(xs) > 0.0
    decreases |xs|
  {
    assert Floats.RealSum(xs) == Floats.RealSum(xs[..|xs| - 1]) + xs[|xs| - 1];
    if |xs| > 1 {
      SumPositive(xs[..|xs| - 1]);
    } else {
      assert Floats.RealSum(xs[..0]) == 0.0;
    }
  }

  /** `close.rolling(w).mean()` at row `i`: undefined (NaN) until `w` bars exist,
      then the mean of the last `w` closes. */
  function MaAt(closes: seq<real>, w: nat, i: nat): (r: Option<real>)
    requires w > 0 && i < |closes|
    ensures r.Some? <==> i + 1 >= w
  {
    if i + 1 >= w then Some(Floats.RealSum(closes[i + 1 - w..i + 1]) / w as real) else None
  }

  /** The moving average as of the last bar. */
  function LastMa(closes: seq<real>, w: nat): Option<real>
    requires w > 0 && |closes| > 0
  {
    MaAt(closes, w, |closes| - 1)
  }

  /** With positive closes a defined moving average is positive. */
  lemma MaPositive(closes: seq<real>, w: nat, i: nat)
    requires w > 0 && i < |closes|
    requires forall k :: 0 <= k < |closes| ==> closes[k] > 0.0
    ensures MaAt(closes, w, i).Some? ==> MaAt(closes, w, i).value > 0.0
  {
    if i + 1 >= w {
      SumPositive(closes[i + 1 - w..i + 1]);
    }
  }

  /** Where the running window ending before row `i` starts. */
  function WindowStart(i: nat, w: nat): nat {
    if i >= w then i - w else 0
  }

  /** Moving the window one row on adds the newest close and, once the window
      is full, drops the close leaving it. */
  lemma WindowSumStep(closes: seq<real>, w: nat, i: nat)
    requires w > 0 && i < |closes|
    ensures Floats.RealSum(closes[WindowStart(i + 1, w)..i + 1])
            == Floats.RealSum(closes[WindowStart(i, w)..i]) + closes[i] - (if i >= w then closes[i - w] else 0.0)
  {
    var lo := WindowStart(i, w);
    assert closes[lo..i + 1][..i - lo] == closes[lo..i];
    assert Floats.RealSum(closes[lo..i + 1]) == Floats.RealSum(closes[lo..i]) + closes[i];
    if i >= w {
      SumFront(closes[lo..i + 1]);
      assert closes[lo..i + 1][1..] == closes[lo + 1..i + 1];
    }
  }

  /** The rolling mean of one window, computed with a running sum that adds the
      newest close and drops the one leaving the window. */
  method RollingMean(closes: seq<real>, w: nat) returns (col: seq<Option<real>>)
    requires w > 0
    ensures |col| == |closes|
    ensures forall i :: 0 <= i < |closes| ==> col[i] == MaAt(closes, w, i)
  {
    col := [];
    var sum := 0.0;
    var i := 0;
    while i < |closes|
      invariant 0 <= i <= |closes|
      invariant |col| == i
      invariant forall k :: 0 <= k < i ==> col[k] == MaAt(closes, w, k)
      invariant sum == Floats.RealSum(closes[WindowStart(i, w)..i])
    {
      WindowSumStep(closes, w, i);
      sum := sum + closes[i];
      if i >= w {
        sum := sum - closes[i - w];
      }
      col := col + [if i + 1 >= w then Some(sum / w as real) else None];
      i := i + 1;
    }
  }

  /** `get_history_data`: a symbol containing "HK" has no history source and
      gets no bars; otherwise the bars the service returned for the symbol's
      history-source code, none when the query failed. */
  function GetHistory(symbol: string, source: map<string, seq<Bar>>): (bars: seq<Bar>)
    ensures Contains(symbol, "HK") || !SingleDot(symbol) ==> bars == []
    ensures !Contains(symbol, "HK") && SingleDot(symbol) ==>
              bars == (if ConvertCode(symbol, BaostockTarget) in source then source[ConvertCode(symbol, BaostockTarget)] else [])
    ensures |bars| > 0 ==> SingleDot(symbol) && ConvertCode(symbol, BaostockTarget) in source
                           && bars == source[ConvertCode(symbol, BaostockTarget)]
  {
    if Contains(symbol, "HK") then []
    else if !SingleDot(symbol) then []
    else Get(source, ConvertCode(symbol, BaostockTarget)).GetOr([])
  }

  /** A Hong Kong ticker never has history, whatever the service holds. */
  lemma HkHasNoHistory(t: string, source: map<string, seq<Bar>>)
    requires ValidTicker(t) && TickerExchange(t) == "HK"
    ensures GetHistory(t, source) == []
  {
    ValidTickerParts(t);
    var code := TickerCode(t);
    assert t == code + "." + "HK";
    assert t[|code| + 1..|code| + 3] == "HK";
    assert OccursAt(t, "HK", |code| + 1);
  }

  /** A Shanghai or Shenzhen ticker whose code is made of digits gets exactly
      the bars the service holds under its history-source symbol, and none
      when the service holds nothing for it. */
  lemma AShareHistory(t: string, source: map<string, seq<Bar>>)
    requires ValidTicker(t) && TickerExchange(t) != "HK" && Decimal.AllDigits(TickerCode(t))
    ensures var s := MarketPrefix(TickerExchange(t)) + "." + TickerCode(t);
            GetHistory(t, source) == if s in source then source[s] else []
  {
    ValidTickerParts(t);
    var code, ex := TickerCode(t), TickerExchange(t);
    assert ex == "SS" || ex == "SZ";
    NoHkInAShare(code, ex);
  }

  lemma NoHkInAShare(code: string, ex: string)
    requires Decimal.AllDigits(code) && (ex == "SS" || ex == "SZ")
    ensures !Contains(code + "." + ex, "HK")
  {
    var t := code + "." + ex;
    forall j: nat
      ensures !OccursAt(t, "HK", j)
    {
      if j + 2 <= |t| {
        if j < |code| {
          assert t[j] == code[j];
        } else if j == |code| {
          assert t[j] == '.';
        } else {
          assert t[j + 1] == ex[1];
        }
        assert t[j..j + 2][0] == t[j] && t[j..j + 2][1] == t[j + 1];
      }
    }
  }
}
