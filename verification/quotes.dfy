/** The realtime quote reader: `parse_sina_response`, `get_realtime_sina` and
    `get_batch_realtime_sina`. The HTTP request and the GBK decoding are left
    out; the response text is a parameter. */
module Quotes {
  import opened Wrappers
  import opened Text
  import opened Decimal
  import opened Utils

  /** (price, previous close, change percent, volume). */
  datatype Quote = Quote(price: real, prevClose: real, changePct: real, volume: real)

  /** The all-zero reading returned for anything malformed or unreachable. */
  const Unavailable: Quote := Quote(0.0, 0.0, 0.0, 0.0)

  /** The marker between the variable name and the quoted field list. */
  const Assign: string := "=\""

  /** The characters stripped from both ends of the field list. */
  const PayloadJunk: set<char> := {'"', ';', '\n'}

  /** `content.split('="')[1].strip('";\n')`. */
  function Payload(content: string): string
    requires Contains(content, Assign)
  {
    Strip(SplitOn(content, Assign)[1], PayloadJunk)
  }

  /** The comma-separated fields of a quote line. */
  function Fields(content: string): seq<string>
    requires Contains(content, Assign)
  {
    SplitOn(Payload(content), ",")
  }

  /** The A-share change percent, derived from price and previous close and
      left at 0 when the previous close is not positive. */
  function ChangePct(curr: real, last: real): (r: real)
    ensures last > 0.0 ==> r * last == (curr - last) * 100.0
    ensures last > 0.0 ==> (r > 0.0 <==> curr > last) && (r == 0.0 <==> curr == last)
    ensures last <= 0.0 ==> r == 0.0
  {
    if last > 0.0 then (curr - last) / last * 100.0 else 0.0
  }

  /** A Hong Kong line: price, previous close, change percent and volume sit in
      fields 6, 3, 8 and 12. */
  function ParseHk(p: seq<string>): Quote {
    if |p| < 13 then Unavailable
    else match (ParseDecimal(p[6]), ParseDecimal(p[3]), ParseDecimal(p[8]), ParseDecimal(p[12]))
      case (Some(curr), Some(last), Some(chg), Some(vol)) => Quote(curr, last, chg, vol)
      case _ => Unavailable
  }

  /** An A-share line: price, previous close and volume sit in fields 3, 2 and 8. */
  function ParseAShare(p: seq<string>): Quote {
    if |p| < 9 then Unavailable
    else match (ParseDecimal(p[3]), ParseDecimal(p[2]), ParseDecimal(p[8]))
      case (Some(curr), Some(last), Some(vol)) => Quote(curr, last, ChangePct(curr, last), vol)
      case _ => Unavailable
  }

  /** A quote whose change percent is the one derived from its prices. */
  predicate DerivedChange(q: Quote) {
    q.changePct == ChangePct(q.price, q.prevClose)
  }

  function ParseSinaResponse(code: string, content: string): (q: Quote)
    ensures !Contains(content, Assign) ==> q == Unavailable
    ensures Contains(content, Assign) && StartsWith(code, "hk") ==>
              var p := Fields(content);
              if |p| >= 13 && ParseDecimal(p[6]).Some? && ParseDecimal(p[3]).Some?
                 && ParseDecimal(p[8]).Some? && ParseDecimal(p[12]).Some?
              then q == Quote(ParseDecimal(p[6]).value, ParseDecimal(p[3]).value,
                              ParseDecimal(p[8]).value, ParseDecimal(p[12]).value)
              else q == Unavailable
    ensures Contains(content, Assign) && !StartsWith(code, "hk") ==>
              var p := Fields(content);
              DerivedChange(q) &&
              if |p| >= 9 && ParseDecimal(p[3]).Some? && ParseDecimal(p[2]).Some? && ParseDecimal(p[8]).Some?
              then q.price == ParseDecimal(p[3]).value && q.prevClose == ParseDecimal(p[2]).value
                   && q.volume == ParseDecimal(p[8]).value
              else q == Unavailable
  {
    if !Contains(content, Assign) then Unavailable
    else if StartsWith(code, "hk") then ParseHk(Fields(content))
    else ParseAShare(Fields(content))
  }

  /** A line that carries a quote is read by the parser of its market. */
  lemma ParseByMarket(code: string, content: string)
    requires Contains(content, Assign)
    ensures ParseSinaResponse(code, content)
            == if StartsWith(code, "hk") then ParseHk(Fields(content)) else ParseAShare(Fields(content))
  {
  }

  /** A feed line `var hq_str_<symbol>="<f0>,<f1>,...";` as the quote service sends it. */
  function FeedLine(symbol: string, fields: seq<string>): string {
    "var hq_str_" + symbol + Assign + Join(fields, ",") + "\";"
  }

  /** A field that carries none of the line's punctuation. */
  predicate PlainField(f: string) {
    forall k :: 0 <= k < |f| ==> f[k] !in {',', '"', ';', '\n', '=', '_'}
  }

  predicate PlainFields(fields: seq<string>) {
    forall i :: 0 <= i < |fields| ==> PlainField(fields[i])
  }

  lemma FieldListPlain(fields: seq<string>)
    requires PlainFields(fields)
    ensures forall k :: 0 <= k < |Join(fields, ",")| ==> Join(fields, ",")[k] !in {'"', ';', '\n', '=', '_'}
  {
    JoinAvoids(fields, ",", {'"', ';', '\n', '=', '_'});
  }

  /** The parser reads back exactly the fields a feed line was built from. */
  lemma {:induction false} FeedLineFields(symbol: string, fields: seq<string>)
    requires AllAlnum(symbol)
    requires |fields| >= 1 && PlainFields(fields)
    ensures Contains(FeedLine(symbol, fields), Assign)
    ensures Fields(FeedLine(symbol, fields)) == fields
  {
    var body := Join(fields, ",");
    var a := "var hq_str_" + symbol;
    var b := body + "\";";
    var line := a + Assign + b;
    assert line == FeedLine(symbol, fields);
    FieldListPlain(fields);
    forall j: nat | j < |a|
      ensures !OccursAt(line, Assign, j)
    {
      if j + 1 < |a| {
        assert line[j + 1] == a[j + 1];
        if j + 1 >= 11 {
          assert a[j + 1] == symbol[j + 1 - 11];
        }
      } else {
        assert line[j + 1] == '=';
      }
      assert line[j + 1] != '"';
      assert line[j..j + |Assign|][1] == line[j + 1];
    }
    SplitOnFirst(a, Assign, b);
    assert forall k :: 0 <= k < |b| ==> b[k] != '=' by {
      forall k | 0 <= k < |b| ensures b[k] != '=' {
        if k < |body| { assert b[k] == body[k]; }
      }
    }
    CharsOfContained(b, Assign, 0);
    SplitOnAbsent(b, Assign);
    assert SplitOn(line, Assign)[1] == b;
    StripExact(body, "\";", PayloadJunk);
    SplitJoinChar(fields, ',');
  }

  /** A Hong Kong feed line whose four numeric fields parse yields exactly those numbers. */
  lemma ParseHkFeedLine(symbol: string, fields: seq<string>)
    requires AllAlnum(symbol) && StartsWith(symbol, "hk")
    requires |fields| >= 13 && PlainFields(fields)
    requires ParseDecimal(fields[6]).Some? && ParseDecimal(fields[3]).Some?
    requires ParseDecimal(fields[8]).Some? && ParseDecimal(fields[12]).Some?
    ensures ParseSinaResponse(symbol, FeedLine(symbol, fields))
            == Quote(ParseDecimal(fields[6]).value, ParseDecimal(fields[3]).value,
                     ParseDecimal(fields[8]).value, ParseDecimal(fields[12]).value)
  {
    FeedLineFields(symbol, fields);
  }

  /** An A-share feed line yields its price, previous close and volume, with the
      change percent derived from the two prices. */
  lemma ParseAShareFeedLine(symbol: string, fields: seq<string>)
    requires AllAlnum(symbol) && !StartsWith(symbol, "hk")
    requires |fields| >= 9 && PlainFields(fields)
    requires ParseDecimal(fields[3]).Some? && ParseDecimal(fields[2]).Some? && ParseDecimal(fields[8]).Some?
    ensures var q := ParseSinaResponse(symbol, FeedLine(symbol, fields));
            q.price == ParseDecimal(fields[3]).value && q.prevClose == ParseDecimal(fields[2]).value
            && q.volume == ParseDecimal(fields[8]).value
            && DerivedChange(q)
  {
    var line := FeedLine(symbol, fields);
    FeedLineFields(symbol, fields);
    ParseByMarket(symbol, line);
    var curr, last, vol := ParseDecimal(fields[3]).value, ParseDecimal(fields[2]).value, ParseDecimal(fields[8]).value;
    assert ParseAShare(fields) == Quote(curr, last, ChangePct(curr, last), vol);
  }

  /** A line too short for its market reads as unavailable. */
  lemma ShortFeedLineUnavailable(symbol: string, fields: seq<string>)
    requires AllAlnum(symbol)
    requires |fields| >= 1 && PlainFields(fields)
    requires if StartsWith(symbol, "hk") then |fields| < 13 else |fields| < 9
    ensures ParseSinaResponse(symbol, FeedLine(symbol, fields)) == Unavailable
  {
    FeedLineFields(symbol, fields);
  }

  /** `get_realtime_sina`: the ticker's feed symbol is looked up in `responses`
      (the text the quote service answered per symbol; a missing entry is a
      failed or timed-out request). A ticker with several dots makes
      `convert_code` raise, which is caught as well. */
  function RealtimeSina(symbol: string, responses: map<string, string>): (q: Quote)
    ensures !SingleDot(symbol) ==> q == Unavailable
    ensures SingleDot(symbol) && ConvertCode(symbol, SinaTarget) !in responses ==> q == Unavailable
    ensures SingleDot(symbol) && ConvertCode(symbol, SinaTarget) in responses ==>
              q == ParseSinaResponse(ConvertCode(symbol, SinaTarget), responses[ConvertCode(symbol, SinaTarget)])
  {
    if !SingleDot(symbol) then Unavailable
    else
      var s := ConvertCode(symbol, SinaTarget);
      if s in responses then ParseSinaResponse(s, responses[s]) else Unavailable
  }

  /** The single reader reads a canonical ticker's feed line by the parser
      of the ticker's market, from exactly the fields the line carries. */
  lemma RealtimeSinaOfFeedLine(t: string, fields: seq<string>, responses: map<string, string>)
    requires ValidTicker(t) && AllAlnum(TickerCode(t))
    requires |fields| >= 1 && PlainFields(fields)
    requires var s := ConvertCode(t, SinaTarget); s in responses && responses[s] == FeedLine(s, fields)
    ensures RealtimeSina(t, responses) == if TickerExchange(t) == "HK" then ParseHk(fields) else ParseAShare(fields)
  {
    var s := ConvertCode(t, SinaTarget);
    SinaSymbolAlnum(t);
    FeedLineFields(s, fields);
    ParseByMarket(s, FeedLine(s, fields));
    SinaPrefixMarket(t);
  }

  /** A canonical ticker's feed symbol starts with "hk" exactly for Hong Kong. */
  lemma SinaPrefixMarket(t: string)
    requires ValidTicker(t)
    ensures StartsWith(ConvertCode(t, SinaTarget), "hk") <==> TickerExchange(t) == "HK"
  {
    ValidTickerParts(t);
    var s := ConvertCode(t, SinaTarget);
    var code := TickerCode(t);
    var prefix := if TickerExchange(t) == "HK" then "hk" else MarketPrefix(TickerExchange(t));
    assert s == prefix + code;
    assert s[..2] == prefix;
  }

  /** One row of the batch table: (ticker, price, change percent, volume). */
  datatype Row = Row(code: string, price: real, changePct: real, volume: real)

  /** `{convert_code(c, "sina"): c for c in code_list}`; a later ticker with the
      same feed symbol overwrites an earlier one. */
  function CodeMap(codes: seq<string>): (m: map<string, string>)
    requires forall i :: 0 <= i < |codes| ==> SingleDot(codes[i])
    ensures forall k :: k in m ==> m[k] in codes && ConvertCode(m[k], SinaTarget) == k
    ensures forall i :: 0 <= i < |codes| ==> ConvertCode(codes[i], SinaTarget) in m
  {
    if |codes| == 0 then map[]
    else
      var init, last := codes[..|codes| - 1], codes[|codes| - 1];
      assert codes == init + [last];
      CodeMap(init)[ConvertCode(last, SinaTarget) := last]
  }

  /** For canonical tickers the map sends each feed symbol back to its ticker. */
  lemma CodeMapInverts(codes: seq<string>, i: nat)
    requires forall j :: 0 <= j < |codes| ==> ValidTicker(codes[j])
    requires i < |codes|
    ensures forall j :: 0 <= j < |codes| ==> SingleDot(codes[j])
    ensures CodeMap(codes)[ConvertCode(codes[i], SinaTarget)] == codes[i]
  {
    var m := CodeMap(codes);
    var s := ConvertCode(codes[i], SinaTarget);
    var t := m[s];
    SinaInjective(t, codes[i]);
  }

  /** The feed symbol a line echoes: `line.split('hq_str_')[-1].split('="')[0]`. */
  function EchoedSymbol(line: string): string {
    var tail := SplitOn(line, "hq_str_");
    SplitOn(tail[|tail| - 1], Assign)[0]
  }

  lemma FeedLineShape(symbol: string, body: string)
    ensures "var hq_str_" + symbol + Assign + body + "\";"
            == "var " + "hq_str_" + (symbol + Assign + body + "\";")
  {
    assert "var hq_str_" == "var " + "hq_str_";
  }

  lemma VarPrefixFirst(rest: string)
    ensures SplitOn("var " + "hq_str_" + rest, "hq_str_") == ["var "] + SplitOn(rest, "hq_str_")
  {
    var line := "var " + "hq_str_" + rest;
    forall j: nat | j < 4
      ensures !OccursAt(line, "hq_str_", j)
    {
      assert line[j] == "var "[j];
      assert line[j..j + 7][0] == line[j];
    }
    SplitOnFirst("var ", "hq_str_", rest);
  }

  lemma FeedRestPlain(symbol: string, fields: seq<string>)
    requires AllAlnum(symbol)
    requires PlainFields(fields)
    ensures '_' !in symbol + Assign + Join(fields, ",") + "\";"
  {
    var body := Join(fields, ",");
    var rest := symbol + Assign + body + "\";";
    FieldListPlain(fields);
    forall k | 0 <= k < |rest|
      ensures rest[k] != '_'
    {
      if k < |symbol| {
        assert rest[k] == symbol[k];
      } else if k >= |symbol| + 2 && k < |symbol| + 2 + |body| {
        assert rest[k] == body[k - |symbol| - 2];
      }
    }
  }

  /** The text after `hq_str_` in a feed line holds no further `hq_str_`. */
  lemma FeedLineAfterVar(symbol: string, fields: seq<string>)
    requires AllAlnum(symbol)
    requires PlainFields(fields)
    ensures SplitOn(FeedLine(symbol, fields), "hq_str_") == ["var ", symbol + Assign + Join(fields, ",") + "\";"]
  {
    var rest := symbol + Assign + Join(fields, ",") + "\";";
    FeedLineShape(symbol, Join(fields, ","));
    VarPrefixFirst(rest);
    assert !Contains(rest, "hq_str_") by {
      FeedRestPlain(symbol, fields);
      CharsOfContained(rest, "hq_str_", 2);
      assert "hq_str_"[2] == '_';
    }
    SplitOnAbsent(rest, "hq_str_");
  }

  lemma SymbolBeforeAssign(symbol: string, b: string)
    requires AllAlnum(symbol)
    ensures SplitOn(symbol + Assign + b, Assign)[0] == symbol
  {
    var rest := symbol + Assign + b;
    forall j: nat | j < |symbol|
      ensures !OccursAt(rest, Assign, j)
    {
      assert rest[j..j + 2][1] == rest[j + 1];
      if j + 1 < |symbol| {
        assert rest[j + 1] == symbol[j + 1];
      }
    }
    SplitOnFirst(symbol, Assign, b);
  }

  /** The symbol the batch reader extracts from a feed line is the one the line was built for. */
  lemma EchoedSymbolOfFeedLine(symbol: string, fields: seq<string>)
    requires AllAlnum(symbol)
    requires PlainFields(fields)
    ensures EchoedSymbol(FeedLine(symbol, fields)) == symbol
  {
    var b := Join(fields, ",") + "\";";
    FeedLineAfterVar(symbol, fields);
    assert symbol + Assign + Join(fields, ",") + "\";" == symbol + Assign + b;
    SymbolBeforeAssign(symbol, b);
  }

  /** The batch row for one quote line: the echoed feed symbol is mapped back to
      the requested ticker, or reported as it is when it is not in the map. */
  function RowOf(m: map<string, string>, line: string): (r: Row)
    ensures EchoedSymbol(line) in m ==> r.code == m[EchoedSymbol(line)]
    ensures EchoedSymbol(line) !in m ==> r.code == EchoedSymbol(line)
    ensures var q := ParseSinaResponse(EchoedSymbol(line), line);
            r.price == q.price && r.changePct == q.changePct && r.volume == q.volume
  {
    var s := EchoedSymbol(line);
    var q := ParseSinaResponse(s, line);
    Row(Get(m, s).GetOr(s), q.price, q.changePct, q.volume)
  }

  /** The lines that carry a quote, in order. */
  function QuoteLines(lines: seq<string>): (r: seq<string>)
    ensures |r| <= |lines|
    ensures forall i :: 0 <= i < |r| ==> Contains(r[i], Assign) && r[i] in lines
    ensures forall i :: 0 <= i < |lines| && Contains(lines[i], Assign) ==> lines[i] in r
  {
    if |lines| == 0 then []
    else
      var last := lines[|lines| - 1];
      QuoteLines(lines[..|lines| - 1]) + (if Contains(last, Assign) then [last] else [])
  }

  /** The positions of the lines that carry a quote: each such position
      exactly once, in increasing order. */
  function QuoteIndices(lines: seq<string>): (idx: seq<nat>)
    ensures forall k :: 0 <= k < |idx| ==> idx[k] < |lines| && Contains(lines[idx[k]], Assign)
    ensures forall k, l :: 0 <= k < l < |idx| ==> idx[k] < idx[l]
    ensures forall i :: 0 <= i < |lines| && Contains(lines[i], Assign) ==> i in idx
  {
    if |lines| == 0 then []
    else
      var n := |lines| - 1;
      QuoteIndices(lines[..n]) + (if Contains(lines[n], Assign) then [n] else [])
  }

  /** The kept lines are the lines at the quote positions: every quote line
      is kept, nothing else is, and their order is preserved. */
  lemma {:induction false} QuoteLinesIndexed(lines: seq<string>)
    ensures |QuoteLines(lines)| == |QuoteIndices(lines)|
    ensures forall k :: 0 <= k < |QuoteLines(lines)| ==> QuoteLines(lines)[k] == lines[QuoteIndices(lines)[k]]
  {
    if |lines| > 0 {
      var n := |lines| - 1;
      QuoteLinesIndexed(lines[..n]);
      forall k | 0 <= k < |QuoteIndices(lines[..n])|
        ensures lines[..n][QuoteIndices(lines[..n])[k]] == lines[QuoteIndices(lines[..n])[k]]
      {
      }
    }
  }

  /** The batch rows of the quote lines among `lines`, in order. */
  function RowsOf(m: map<string, string>, lines: seq<string>): seq<Row> {
    if |lines| == 0 then []
    else
      var last := lines[|lines| - 1];
      RowsOf(m, lines[..|lines| - 1]) + (if Contains(last, Assign) then [RowOf(m, last)] else [])
  }

  /** There is one row per quote line, built from that line. */
  lemma {:induction false} RowsOfQuoteLines(m: map<string, string>, lines: seq<string>)
    ensures |RowsOf(m, lines)| == |QuoteLines(lines)|
    ensures forall k :: 0 <= k < |RowsOf(m, lines)| ==> RowsOf(m, lines)[k] == RowOf(m, QuoteLines(lines)[k])
  {
    if |lines| > 0 {
      RowsOfQuoteLines(m, lines[..|lines| - 1]);
    }
  }

  /** `get_batch_realtime_sina`: one request for all tickers (`response`, None
      when it failed), one row per response line that carries a quote. */
  method BatchRealtime(codes: seq<string>, response: Option<string>) returns (rows: seq<Row>)
    ensures |codes| == 0 || response.None? ==> rows == []
    ensures (exists i :: 0 <= i < |codes| && !SingleDot(codes[i])) ==> rows == []
    ensures |codes| > 0 && response.Some? && (forall i :: 0 <= i < |codes| ==> SingleDot(codes[i])) ==>
              var kept := QuoteLines(SplitOn(response.value, "\n"));
              |rows| == |kept| && forall i :: 0 <= i < |rows| ==> rows[i] == RowOf(CodeMap(codes), kept[i])
  {
    if |codes| == 0 || response.None? {
      return [];
    }
    if exists i :: 0 <= i < |codes| && !SingleDot(codes[i]) {
      return [];
    }
    var m := CodeMap(codes);
    var lines := SplitOn(response.value, "\n");
    rows := [];
    var i := 0;
    while i < |lines|
      invariant 0 <= i <= |lines|
      invariant rows == RowsOf(m, lines[..i])
    {
      assert lines[..i + 1][..i] == lines[..i];
      if Contains(lines[i], Assign) {
        rows := rows + [RowOf(m, lines[i])];
      }
      i := i + 1;
    }
    assert lines[..|lines|] == lines;
    RowsOfQuoteLines(m, lines);
  }

  /** A response made of quote lines, one per line, is split back into exactly those lines. */
  lemma {:induction false} QuoteLinesOfResponse(lines: seq<string>)
    requires |lines| >= 1
    requires forall i :: 0 <= i < |lines| ==> '\n' !in lines[i] && Contains(lines[i], Assign)
    ensures QuoteLines(SplitOn(Join(lines, "\n"), "\n")) == lines
  {
    SplitJoinChar(lines, '\n');
    AllQuoteLines(lines);
  }

  lemma {:induction false} AllQuoteLines(lines: seq<string>)
    requires forall i :: 0 <= i < |lines| ==> Contains(lines[i], Assign)
    ensures QuoteLines(lines) == lines
  {
    if |lines| > 0 {
      AllQuoteLines(lines[..|lines| - 1]);
      assert lines == lines[..|lines| - 1] + [lines[|lines| - 1]];
    }
  }

  lemma SinaSymbolAlnum(t: string)
    requires ValidTicker(t) && AllAlnum(TickerCode(t))
    ensures AllAlnum(ConvertCode(t, SinaTarget))
  {
    ValidTickerParts(t);
    var s := ConvertCode(t, SinaTarget);
    var code := TickerCode(t);
    var prefix := if TickerExchange(t) == "HK" then "hk" else MarketPrefix(TickerExchange(t));
    assert s == prefix + code;
    forall k | 0 <= k < |s| ensures IsAlnum(s[k]) {
      if k >= 2 { assert s[k] == code[k - 2]; }
    }
  }

  /** A feed line answering for one of the requested canonical tickers is
      reported under that ticker. */
  lemma BatchRowNamesTicker(codes: seq<string>, i: nat, fields: seq<string>)
    requires forall j :: 0 <= j < |codes| ==> ValidTicker(codes[j])
    requires i < |codes| && AllAlnum(TickerCode(codes[i]))
    requires PlainFields(fields)
    ensures forall j :: 0 <= j < |codes| ==> SingleDot(codes[j])
    ensures RowOf(CodeMap(codes), FeedLine(ConvertCode(codes[i], SinaTarget), fields)).code == codes[i]
  {
    var s := ConvertCode(codes[i], SinaTarget);
    SinaSymbolAlnum(codes[i]);
    EchoedSymbolOfFeedLine(s, fields);
    CodeMapInverts(codes, i);
  }

  /** When every quote line of the response echoes a requested symbol, every
      row of the batch is reported under one of the requested tickers. */
  lemma BatchRowsRequested(codes: seq<string>, response: string)
    requires forall j :: 0 <= j < |codes| ==> SingleDot(codes[j])
    requires forall l :: l in SplitOn(response, "\n") && Contains(l, Assign) ==> EchoedSymbol(l) in CodeMap(codes)
    ensures var kept := QuoteLines(SplitOn(response, "\n"));
            forall k :: 0 <= k < |kept| ==> RowOf(CodeMap(codes), kept[k]).code in codes
  {
  }

  /** The batch reader and the single reader agree: the row of a canonical
      ticker's feed line carries the numbers the single reader returns for
      that ticker when the service answers with the same line. */
  lemma BatchRowAgreesWithSingle(codes: seq<string>, i: nat, fields: seq<string>, responses: map<string, string>)
    requires forall j :: 0 <= j < |codes| ==> ValidTicker(codes[j])
    requires i < |codes| && ValidTicker(codes[i]) && AllAlnum(TickerCode(codes[i]))
    requires PlainFields(fields)
    requires var s := ConvertCode(codes[i], SinaTarget); s in responses && responses[s] == FeedLine(s, fields)
    ensures forall j :: 0 <= j < |codes| ==> SingleDot(codes[j])
    ensures var r := RowOf(CodeMap(codes), responses[ConvertCode(codes[i], SinaTarget)]);
            var q := RealtimeSina(codes[i], responses);
            r.code == codes[i] && r.price == q.price && r.changePct == q.changePct && r.volume == q.volume
  {
    var s := ConvertCode(codes[i], SinaTarget);
    var line := FeedLine(s, fields);
    SinaSymbolAlnum(codes[i]);
    EchoedSymbolOfFeedLine(s, fields);
    BatchRowNamesTicker(codes, i, fields);
    var q := ParseSinaResponse(s, line);
    assert RealtimeSina(codes[i], responses) == q;
    var r := RowOf(CodeMap(codes), line);
    assert r.price == q.price && r.changePct == q.changePct && r.volume == q.volume;
  }
}
