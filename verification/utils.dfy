/** Ticker code normalisation (`convert_code`): a canonical `CODE.EXCHANGE`
    ticker becomes the quote feed's symbol (`sh600519`, `hk00700`) or the
    history source's symbol (`sh.600519`). */
module Utils {
  import opened Wrappers
  import opened Text

  const SinaTarget: string := "sina"
  const BaostockTarget: string := "baostock"

  /** `symbol.split('.')` can be unpacked into `code, exchange` only when it
      has at most one dot; with more, Python raises ValueError. */
  predicate SingleDot(symbol: string) {
    |SplitOn(symbol, ".")| <= 2
  }

  /** The part before the dot. */
  function TickerCode(symbol: string): string {
    SplitOn(symbol, ".")[0]
  }

  /** The part after the dot ("" when there is none). */
  function TickerExchange(symbol: string): string {
    var parts := SplitOn(symbol, ".");
    if |parts| >= 2 then parts[1] else ""
  }

  /** The A-share prefix: "sh" for Shanghai, "sz" for every other exchange. */
  function MarketPrefix(exchange: string): (p: string)
    ensures |p| == 2
    ensures p == "sh" <==> exchange == "SS"
    ensures p == "sz" <==> exchange != "SS"
  {
    if exchange == "SS" then "sh" else "sz"
  }

  function ConvertCode(symbol: string, target: string): (r: string)
    requires SingleDot(symbol)
    ensures !Contains(symbol, ".") ==> r == symbol
    ensures Contains(symbol, ".") && TickerExchange(symbol) == "HK" ==>
              r == (if target == SinaTarget then "hk" + TickerCode(symbol) else symbol)
    ensures Contains(symbol, ".") && TickerExchange(symbol) != "HK" ==>
              r == (if target == SinaTarget then MarketPrefix(TickerExchange(symbol)) + TickerCode(symbol)
                    else if target == BaostockTarget then MarketPrefix(TickerExchange(symbol)) + "." + TickerCode(symbol)
                    else symbol)
  {
    if |symbol| == 0 || !Contains(symbol, ".") then symbol
    else
      var code := TickerCode(symbol);
      var exchange := TickerExchange(symbol);
      if exchange == "HK" then
        (if target == SinaTarget then "hk" + code else symbol)
      else
        var prefix := MarketPrefix(exchange);
        if target == SinaTarget then prefix + code
        else if target == BaostockTarget then prefix + "." + code
        else symbol
  }

  /** A canonical ticker: exactly one dot, followed by one of the three exchanges. */
  predicate ValidTicker(t: string) {
    |SplitOn(t, ".")| == 2 && TickerExchange(t) in {"SS", "SZ", "HK"}
  }

  lemma ValidTickerParts(t: string)
    requires ValidTicker(t)
    ensures t == TickerCode(t) + "." + TickerExchange(t)
    ensures Contains(t, ".")
  {
    JoinSplit(t, ".");
  }

  /** Reads a quote-feed symbol back as a canonical ticker. */
  function TickerOfSina(s: string): Option<string> {
    if |s| < 2 then None
    else if s[..2] == "sh" then Some(s[2..] + ".SS")
    else if s[..2] == "sz" then Some(s[2..] + ".SZ")
    else if s[..2] == "hk" then Some(s[2..] + ".HK")
    else None
  }

  /** Reads a history-source symbol back as a canonical ticker. */
  function TickerOfBaostock(s: string): Option<string> {
    if |s| < 3 then None
    else if s[..3] == "sh." then Some(s[3..] + ".SS")
    else if s[..3] == "sz." then Some(s[3..] + ".SZ")
    else None
  }

  /** The feed symbol of a canonical ticker reads back as that ticker: the
      two-letter prefix names the exchange and the rest is the code. */
  lemma SinaRoundTrip(t: string)
    requires ValidTicker(t)
    ensures TickerOfSina(ConvertCode(t, SinaTarget)) == Some(t)
  {
    ValidTickerParts(t);
    var code, ex := TickerCode(t), TickerExchange(t);
    var s := ConvertCode(t, SinaTarget);
    if ex == "HK" {
      assert s == "hk" + code;
      assert s[..2] == "hk" && s[2..] == code;
      assert code + ".HK" == code + "." + ex;
    } else if ex == "SS" {
      assert s == "sh" + code;
      assert s[..2] == "sh" && s[2..] == code;
      assert code + ".SS" == code + "." + ex;
    } else {
      assert s == "sz" + code;
      assert s[..2] == "sz" && s[2..] == code;
      assert code + ".SZ" == code + "." + ex;
    }
  }

  /** Distinct canonical tickers never share a feed symbol. */
  lemma SinaInjective(t1: string, t2: string)
    requires ValidTicker(t1) && ValidTicker(t2)
    requires ConvertCode(t1, SinaTarget) == ConvertCode(t2, SinaTarget)
    ensures t1 == t2
  {
    SinaRoundTrip(t1);
    SinaRoundTrip(t2);
  }

  /** Shanghai and Shenzhen tickers survive the trip through the history
      source's symbol; a Hong Kong ticker is passed to it unchanged. */
  lemma BaostockRoundTrip(t: string)
    requires ValidTicker(t)
    ensures TickerExchange(t) != "HK" ==> TickerOfBaostock(ConvertCode(t, BaostockTarget)) == Some(t)
    ensures TickerExchange(t) == "HK" ==> ConvertCode(t, BaostockTarget) == t
  {
    ValidTickerParts(t);
    var code, ex := TickerCode(t), TickerExchange(t);
    if ex != "HK" {
      var p := MarketPrefix(ex) + ".";
      assert ConvertCode(t, BaostockTarget) == p + code;
      PrefixSlices(p, code);
      DotSuffix(code, ex);
      if ex == "SS" {
        assert p == "sh." && "." + ex == ".SS";
      } else {
        assert p == "sz." && "." + ex == ".SZ";
      }
    }
  }

  lemma DotSuffix(code: string, ex: string)
    ensures code + "." + ex == code + ("." + ex)
  {
  }

  lemma PrefixSlices(p: string, code: string)
    requires |p| == 3
    ensures (p + code)[..3] == p && (p + code)[3..] == code
  {
  }
}
