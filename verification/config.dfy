/** The in-memory part of `load_config`: a parsed configuration document has its
    missing top-level keys, and its missing alert-threshold keys, filled in from
    the built-in defaults. Reading and writing the file are not modelled. */
module Config {
  import opened Wrappers
  import opened Text

  /** A JSON value as `json.load` produces it. */
  datatype Json =
    | JNull
    | JBool(b: bool)
    | JNum(n: real)
    | JStr(s: string)
    | JArr(items: seq<Json>)
    | JObj(fields: map<string, Json>)

  /** The three watch strategies, as the configuration stores them. */
  const ShortTermName: string := "⚡ 短线"
  const BandName: string := "🌊 波段"
  const MarketName: string := "⚓ 大盘"

  const DefaultThresholds: map<string, Json> :=
    map["short" := JNum(3.0), "band" := JNum(-5.0), "market" := JNum(-8.0)]

  const Defaults: map<string, Json> := map[
    "api_key" := JStr(""),
    "base_url" := JStr("https://api.deepseek.com"),
    "watch_list" := JObj(map["600519.SS" := JObj(map["strategy" := JStr(BandName)])]),
    "holding_list" := JObj(map[]),
    "user_news" := JStr(""),
    "system_news" := JStr(""),
    "thresholds" := JObj(DefaultThresholds)
  ]

  /** Python's `k in v` for a non-empty key: key membership for an object,
      substring for a string, element equality for a list; None where Python
      raises TypeError. */
  function PyIn(k: string, v: Json): Option<bool>
    requires |k| > 0
  {
    match v
    case JObj(m) => Some(k in m)
    case JStr(s) => Some(Contains(s, k))
    case JArr(a) => Some(JStr(k) in a)
    case _ => None
  }

  /** Every default threshold key answers True to Python's `in`. */
  predicate HasThresholdKeys(v: Json) {
    PyIn("short", v) == Some(true) && PyIn("band", v) == Some(true) && PyIn("market", v) == Some(true)
  }

  lemma DefaultThresholdKeys()
    ensures DefaultThresholds.Keys == {"short", "band", "market"}
  {
  }

  lemma DefaultsHaveThresholds()
    ensures "thresholds" in Defaults && Defaults["thresholds"] == JObj(DefaultThresholds)
  {
  }

  /** Adds every entry of `d` whose key `c` lacks; entries of `c` win. */
  function FillMissing(c: map<string, Json>, d: map<string, Json>): (r: map<string, Json>)
    ensures r.Keys == c.Keys + d.Keys
    ensures forall k :: k in c ==> r[k] == c[k]
    ensures forall k :: k in d && k !in c ==> r[k] == d[k]
  {
    d + c
  }

  /** The threshold loop: an object gains the missing keys; any other value
      survives only when every key is already `in` it, since assigning a key
      into a string or list (or testing `in` on a number, bool or null)
      raises TypeError, shown as None. */
  function BackFillThresholds(t: Json): (r: Option<Json>)
    ensures t.JObj? ==> r.Some?
    ensures r.Some? ==> HasThresholdKeys(r.value)
    ensures r.Some? && t.JObj? ==> r.value.JObj? && t.fields.Keys <= r.value.fields.Keys
    ensures r.Some? && t.JObj? ==> forall k :: k in t.fields ==> r.value.fields[k] == t.fields[k]
    ensures r.Some? && !t.JObj? ==> r.value == t
  {
    match t
    case JObj(m) =>
      DefaultThresholdKeys();
      Some(JObj(FillMissing(m, DefaultThresholds)))
    case _ =>
      if PyIn("short", t) == Some(true) && PyIn("band", t) == Some(true) && PyIn("market", t) == Some(true)
      then Some(t) else None
  }

  /** A thresholds object gains exactly the missing threshold keys, each
      with its built-in value, and keeps every value it has. */
  lemma BackFillThresholdsObject(m: map<string, Json>)
    ensures BackFillThresholds(JObj(m)).Some?
    ensures var r := BackFillThresholds(JObj(m)).value;
            r.JObj? && r.fields.Keys == m.Keys + DefaultThresholds.Keys
            && (forall k :: k in m ==> r.fields[k] == m[k])
            && (forall k :: k in DefaultThresholds && k !in m ==> r.fields[k] == DefaultThresholds[k])
  {
  }

  /** The key back-fill of `load_config`; None where it raises. */
  function BackFill(c: map<string, Json>): (r: Option<map<string, Json>>)
    ensures r.Some? ==> r.value.Keys == c.Keys + Defaults.Keys
    ensures r.Some? ==> forall k :: k in c && k != "thresholds" ==> r.value[k] == c[k]
    ensures r.Some? ==> forall k :: k in Defaults && k !in c ==> r.value[k] == Defaults[k]
    ensures r.Some? ==> HasThresholdKeys(r.value["thresholds"])
    ensures ("thresholds" !in c || c["thresholds"].JObj?) ==> r.Some?
  {
    DefaultsHaveThresholds();
    var top := FillMissing(c, Defaults);
    assert "thresholds" in top;
    match BackFillThresholds(top["thresholds"])
    case None => None
    case Some(t) =>
      var r := top["thresholds" := t];
      assert r.Keys == top.Keys;
      assert forall k :: k in top && k != "thresholds" ==> r[k] == top[k];
      Some(r)
  }

  /** Threshold values already present are kept as they are. */
  lemma BackFillKeepsThresholds(c: map<string, Json>)
    requires "thresholds" in c && c["thresholds"].JObj?
    ensures BackFill(c).Some?
    ensures var t := BackFill(c).value["thresholds"];
            t.JObj? && forall k :: k in c["thresholds"].fields ==>
              k in t.fields && t.fields[k] == c["thresholds"].fields[k]
  {
  }

  /** A document that has been back-filled is left as it is by a second pass. */
  lemma BackFillIdempotent(c: map<string, Json>)
    requires BackFill(c).Some?
    ensures BackFill(BackFill(c).value) == BackFill(c)
  {
    DefaultsHaveThresholds();
    DefaultThresholdKeys();
    var r := BackFill(c).value;
    FillMissingComplete(r, Defaults);
    var t := r["thresholds"];
    if t.JObj? {
      FillMissingComplete(t.fields, DefaultThresholds);
    }
    assert BackFillThresholds(t) == Some(t);
    assert r["thresholds" := t] == r;
  }

  /** Back-filling a map that already has every default key changes nothing. */
  lemma FillMissingComplete(c: map<string, Json>, d: map<string, Json>)
    requires d.Keys <= c.Keys
    ensures FillMissing(c, d) == c
  {
  }

  lemma BackFillIdempotentDefaults()
    ensures BackFill(Defaults) == Some(Defaults)
  {
    DefaultsHaveThresholds();
    DefaultThresholdKeys();
    assert FillMissing(Defaults, Defaults) == Defaults;
    assert FillMissing(DefaultThresholds, DefaultThresholds) == DefaultThresholds;
    assert Defaults["thresholds" := JObj(DefaultThresholds)] == Defaults;
  }

  /** What `load_config` finds on disk. */
  datatype ConfigFile = Missing | Unparsable | Parsed(doc: Json)

  /** `load_config`: the defaults when there is no file or it is not valid
      JSON, otherwise the back-filled document; None where it raises. */
  function LoadConfig(f: ConfigFile): (r: Option<map<string, Json>>)
    ensures r.Some? ==> Defaults.Keys <= r.value.Keys && HasThresholdKeys(r.value["thresholds"])
    ensures !f.Parsed? ==> r == Some(Defaults)
    ensures f.Parsed? && !f.doc.JObj? ==> r.None?
    ensures f.Parsed? && f.doc.JObj? ==> r == BackFill(f.doc.fields)
  {
    DefaultsHaveThresholds();
    DefaultThresholdKeys();
    match f
    case Missing => Some(Defaults)
    case Unparsable =>
      BackFillIdempotentDefaults();
      BackFill(Defaults)
    case Parsed(JObj(m)) => BackFill(m)
    case Parsed(_) => None
  }

  /** A back-filled document, once saved, loads back unchanged. */
  lemma LoadSavedConfig(c: map<string, Json>)
    requires BackFill(c).Some?
    ensures LoadConfig(Parsed(JObj(BackFill(c).value))) == BackFill(c)
  {
    BackFillIdempotent(c);
  }

  /** A missing threshold takes its built-in value: 3% for short-term, -5%
      for band and -8% for the market. */
  lemma EmptyThresholdsTakeDefaults()
    ensures BackFillThresholds(JObj(map[])) == Some(JObj(map["short" := JNum(3.0), "band" := JNum(-5.0), "market" := JNum(-8.0)]))
  {
    assert FillMissing(map[], DefaultThresholds) == DefaultThresholds;
  }
}
