/** Bulk import of pasted ticker codes into the watch list: the pasted text
    is split into tokens, each token is looked up in the stock list either
    verbatim or with its market tags removed, and every token that resolves
    adds (or overwrites) a watch entry with the chosen strategy. */
module BulkImport {
  import opened Wrappers
  import opened Text
  import Alerts

  // ---------------------------------------------------------------- tokens

  /** A character the import splits on: a comma or whitespace. */
  predicate IsSeparator(c: char) {
    c == ',' || IsSpace(c)
  }

  predicate NoSeparator(s: string) {
    forall i :: 0 <= i < |s| ==> !IsSeparator(s[i])
  }

  /** A finished token, or nothing when the current run is empty. */
  function Flush(cur: string): seq<string> {
    if cur == [] then [] else [cur]
  }

  /** The tokens of `s` when the run being read so far is `cur`. */
  function TokensFrom(s: string, cur: string): (ts: seq<string>)
    requires NoSeparator(cur)
    ensures forall k :: 0 <= k < |ts| ==> |ts[k]| > 0 && NoSeparator(ts[k])
    decreases |s|
  {
    if |s| == 0 then Flush(cur)
    else if IsSeparator(s[0]) then Flush(cur) + TokensFrom(s[1..], [])
    else TokensFrom(s[1..], cur + [s[0]])
  }

  /** The non-empty pieces of `re.split(r'[,\s\n]+', text.strip())`: the
      maximal runs of non-separator characters. Splitting on runs can only
      leave an empty piece at either end, and those the import skips. */
  function Tokens(text: string): (ts: seq<string>)
    ensures forall k :: 0 <= k < |ts| ==> |ts[k]| > 0 && NoSeparator(ts[k])
  {
    TokensFrom(Strip(text, Whitespace), [])
  }

  function Concat(ts: seq<string>): string {
    if |ts| == 0 then "" else ts[0] + Concat(ts[1..])
  }

  /** The characters of `s` that are not separators, in order. */
  function Kept(s: string): (r: string)
    ensures NoSeparator(r)
  {
    if |s| == 0 then "" else (if IsSeparator(s[0]) then "" else [s[0]]) + Kept(s[1..])
  }

  lemma {:induction false} ConcatAppend(a: seq<string>, b: seq<string>)
    ensures Concat(a + b) == Concat(a) + Concat(b)
  {
    if |a| > 0 {
      ConcatAppend(a[1..], b);
      assert (a + b)[1..] == a[1..] + b;
    } else {
      assert a + b == b;
    }
  }

  /** Tokenising loses exactly the separators: the tokens, read one after the
      other, are the non-separator characters of the input. */
  lemma {:induction false} TokensFromContent(s: string, cur: string)
    requires NoSeparator(cur)
    ensures Concat(TokensFrom(s, cur)) == cur + Kept(s)
    decreases |s|
  {
    if |s| == 0 {
      assert Concat(Flush(cur)) == cur;
    } else if IsSeparator(s[0]) {
      TokensFromContent(s[1..], []);
      ConcatAppend(Flush(cur), TokensFrom(s[1..], []));
      assert Concat(Flush(cur)) == cur;
    } else {
      TokensFromContent(s[1..], cur + [s[0]]);
    }
  }

  lemma TokensContent(text: string)
    ensures Concat(Tokens(text)) == Kept(Strip(text, Whitespace))
  {
    TokensFromContent(Strip(text, Whitespace), []);
  }

  /** Reading a separator-free word extends the current run. */
  lemma {:induction false} TokensFromWord(w: string, rest: string, cur: string)
    requires NoSeparator(cur) && NoSeparator(w)
    ensures TokensFrom(w + rest, cur) == TokensFrom(rest, cur + w)
    decreases |w|
  {
    if |w| > 0 {
      assert (w + rest)[0] == w[0];
      assert !IsSeparator(w[0]);
      assert (w + rest)[1..] == w[1..] + rest;
      assert NoSeparator(cur + [w[0]]) by {
        forall i | 0 <= i < |cur| + 1 ensures !IsSeparator((cur + [w[0]])[i]) {
          if i < |cur| {
            assert (cur + [w[0]])[i] == cur[i];
          }
        }
      }
      assert NoSeparator(w[1..]) by {
        forall i | 0 <= i < |w| - 1 ensures !IsSeparator(w[1..][i]) {
          assert w[1..][i] == w[i + 1];
        }
      }
      TokensFromWord(w[1..], rest, cur + [w[0]]);
      assert cur + [w[0]] + w[1..] == cur + w;
    } else {
      assert w + rest == rest;
      assert cur + w == cur;
    }
  }

  /** Comma-joined tokens are read back as the same tokens. */
  lemma {:induction false} TokensOfJoin(ts: seq<string>)
    requires forall k :: 0 <= k < |ts| ==> |ts[k]| > 0 && NoSeparator(ts[k])
    ensures TokensFrom(Join(ts, ","), []) == ts
  {
    if |ts| == 1 {
      assert Join(ts, ",") == ts[0] + "";
      TokensFromWord(ts[0], "", []);
      assert [] + ts[0] == ts[0];
      assert Flush(ts[0]) == ts;
    } else if |ts| > 1 {
      var rest := Join(ts[1..], ",");
      assert Join(ts, ",") == ts[0] + ("," + rest);
      TokensFromWord(ts[0], "," + rest, []);
      assert ("," + rest)[1..] == rest;
      TokensOfJoin(ts[1..]);
      assert [] + ts[0] == ts[0];
    }
  }

  // ---------------------------------------------------------------- cleaning

  const MarketTags: set<string> := {"sh", "sz", "ss", "hk"}

  /** `re.sub(r'(sh|sz|ss|hk)', '', s)`: tags are removed left to right, and
      the text after a removed tag is not joined with what precedes it. */
  function StripMarketTags(s: string): (r: string)
    ensures |r| <= |s|
    decreases |s|
  {
    if |s| >= 2 && s[..2] in MarketTags then StripMarketTags(s[2..])
    else if |s| == 0 then ""
    else [s[0]] + StripMarketTags(s[1..])
  }

  /** The cleaned form of a raw token. */
  function Clean(rc: string): string {
    StripMarketTags(Lower(rc))
  }

  predicate NoTagLetter(s: string) {
    forall i :: 0 <= i < |s| ==> s[i] !in {'s', 'h', 'z', 'k'}
  }

  /** A string without any of the tag letters comes through unchanged. */
  lemma {:induction false} StripKeepsUntagged(s: string)
    requires NoTagLetter(s)
    ensures StripMarketTags(s) == s
    decreases |s|
  {
    if |s| > 0 {
      if |s| >= 2 {
        assert s[..2][0] == s[0];
        assert s[..2] !in MarketTags;
      }
      StripKeepsUntagged(s[1..]);
      assert s == [s[0]] + s[1..];
    }
  }

  /** A market tag in either case in front of a numeric code is removed, so
      `SH600519` and `hk00700` clean to the bare codes. */
  lemma CleanTagged(tag: string, code: string)
    requires Lower(tag) in MarketTags
    requires forall i :: 0 <= i < |code| ==> '0' <= code[i] <= '9'
    ensures Clean(tag + code) == code
  {
    var l := Lower(tag + code);
    assert l == Lower(tag) + code;
    assert l[..2] == Lower(tag);
    assert l[2..] == code;
    StripKeepsUntagged(code);
  }

  // ---------------------------------------------------------------- lookup

  /** A stock-list entry has the form `name|code`. */
  predicate WellFormedItem(item: string) {
    Contains(item, "|")
  }

  /** The code of a stock-list entry: the second `|` field, stripped. */
  function ItemCode(item: string): string
    requires WellFormedItem(item)
  {
    Strip(SplitOn(item, "|")[1], Whitespace)
  }

  /** The code without its exchange: the text before the first dot. */
  function DotPrefix(full: string): string {
    SplitOn(full, ".")[0]
  }

  /** The codes of the entries, in list order. */
  function ItemCodes(items: seq<string>): (codes: seq<string>)
    requires forall i :: 0 <= i < |items| ==> WellFormedItem(items[i])
    ensures |codes| == |items|
    ensures forall i :: 0 <= i < |items| ==> codes[i] == ItemCode(items[i])
  {
    seq(|items|, i requires 0 <= i < |items| => ItemCode(items[i]))
  }

  /** The lookup table: each listed code, and its dot prefix, maps to the
      code; later entries overwrite earlier ones. */
  function BuildLookup(codes: seq<string>): (m: map<string, string>)
  {
    if |codes| == 0 then map[]
    else
      var full := codes[|codes| - 1];
      BuildLookup(codes[..|codes| - 1])[full := full][DotPrefix(full) := full]
  }

  /** Every key of the table maps to a listed code it equals or is the dot
      prefix of. */
  lemma {:induction false} LookupValues(codes: seq<string>)
    ensures forall k :: k in BuildLookup(codes) ==>
              BuildLookup(codes)[k] in codes && (k == BuildLookup(codes)[k] || k == DotPrefix(BuildLookup(codes)[k]))
  {
    if |codes| > 0 {
      var init := codes[..|codes| - 1];
      var full := codes[|codes| - 1];
      LookupValues(init);
      var m0 := BuildLookup(init);
      var m := BuildLookup(codes);
      assert m == m0[full := full][DotPrefix(full) := full];
      forall k | k in m
        ensures m[k] in codes && (k == m[k] || k == DotPrefix(m[k]))
      {
        if k == full || k == DotPrefix(full) {
          assert m[k] == full;
        } else {
          assert m[k] == m0[k];
          assert m0[k] in init;
        }
      }
    }
  }

  /** Every listed code and its dot prefix is a key of the table. */
  lemma {:induction false} LookupKeys(codes: seq<string>)
    ensures forall c :: c in codes ==> c in BuildLookup(codes) && DotPrefix(c) in BuildLookup(codes)
  {
    if |codes| > 0 {
      var init := codes[..|codes| - 1];
      var full := codes[|codes| - 1];
      LookupKeys(init);
      var m0 := BuildLookup(init);
      var m := BuildLookup(codes);
      assert m == m0[full := full][DotPrefix(full) := full];
      forall c | c in codes
        ensures c in m && DotPrefix(c) in m
      {
        if c != full {
          assert c in init;
        }
      }
    }
  }

  /** `x or y` on two lookups: a missing or empty result counts as false. */
  predicate Truthy(o: Option<string>) {
    o.Some? && o.value != ""
  }

  /** `lookup.get(rc) or lookup.get(clean)`, as a target to add or nothing. */
  function Resolve(lookup: map<string, string>, rc: string): (r: Option<string>)
    ensures r.Some? <==> Truthy(Get(lookup, rc)) || Truthy(Get(lookup, Clean(rc)))
    ensures Truthy(Get(lookup, rc)) ==> r == Some(lookup[rc])
    ensures !Truthy(Get(lookup, rc)) && r.Some? ==> r.value == lookup[Clean(rc)]
    ensures r.Some? ==> r.value != ""
  {
    var first := Get(lookup, rc);
    if Truthy(first) then first
    else
      var second := Get(lookup, Clean(rc));
      if Truthy(second) then second else None
  }

  /** The dot prefix of the empty code is empty. */
  lemma EmptyPrefix()
    ensures DotPrefix("") == ""
  {
    assert IndexOf("", ".").None?;
  }

  /** Non-empty keys of the table map to non-empty codes. */
  lemma NonEmptyKeyValue(codes: seq<string>, k: string)
    requires k in BuildLookup(codes) && |k| > 0
    ensures BuildLookup(codes)[k] in codes && BuildLookup(codes)[k] != ""
  {
    LookupValues(codes);
    EmptyPrefix();
  }

  /** Whatever a token resolves to is a listed code. */
  lemma ResolveSound(codes: seq<string>, rc: string)
    ensures var r := Resolve(BuildLookup(codes), rc);
            r.Some? ==> r.value in codes
  {
    LookupValues(codes);
  }

  /** A token that is a listed code, or the dot prefix of one, resolves. */
  lemma ResolveComplete(codes: seq<string>, rc: string, c: string)
    requires |rc| > 0 && c in codes && (rc == c || rc == DotPrefix(c))
    ensures Resolve(BuildLookup(codes), rc).Some?
  {
    LookupKeys(codes);
    NonEmptyKeyValue(codes, rc);
  }

  // ---------------------------------------------------------------- import

  /** The targets the tokens resolve to, one per resolving token, in order;
      empty tokens are skipped. */
  function Targets(tokens: seq<string>, lookup: map<string, string>): (ts: seq<string>)
    ensures |ts| <= |tokens|
  {
    if |tokens| == 0 then []
    else
      var init := Targets(tokens[..|tokens| - 1], lookup);
      match TokenTarget(lookup, tokens[|tokens| - 1])
      case Some(t) => init + [t]
      case None => init
  }

  /** The target of one token: none for an empty token, else its resolution. */
  function TokenTarget(lookup: map<string, string>, rc: string): (r: Option<string>)
    ensures rc == "" ==> r.None?
    ensures rc != "" ==> r == Resolve(lookup, rc)
  {
    if rc == "" then None else Resolve(lookup, rc)
  }

  /** Reading one more token adds its target, if it is not empty and resolves. */
  lemma TargetsStep(tokens: seq<string>, i: nat, lookup: map<string, string>)
    requires i < |tokens|
    ensures Targets(tokens[..i + 1], lookup)
            == Targets(tokens[..i], lookup) + TokenTarget(lookup, tokens[i]).ToSeq()
  {
    assert tokens[..i + 1][..i] == tokens[..i];
  }

  /** The targets of the pasted text against the stock list. */
  function ImportTargets(text: string, items: seq<string>): seq<string>
    requires forall i :: 0 <= i < |items| ==> WellFormedItem(items[i])
  {
    Targets(Tokens(text), BuildLookup(ItemCodes(items)))
  }

  /** Each target, in turn, set to the chosen strategy. */
  function Apply(watch: map<string, Alerts.WatchEntry>, targets: seq<string>, strategy: string): map<string, Alerts.WatchEntry> {
    if |targets| == 0 then watch
    else Apply(watch, targets[..|targets| - 1], strategy)[targets[|targets| - 1] := Alerts.WatchEntry(Some(strategy))]
  }

  lemma ApplyStep(watch: map<string, Alerts.WatchEntry>, targets: seq<string>, t: string, strategy: string)
    ensures Apply(watch, targets + [t], strategy) == Apply(watch, targets, strategy)[t := Alerts.WatchEntry(Some(strategy))]
  {
    assert (targets + [t])[..|targets|] == targets;
  }

  /** Applying targets adds exactly those keys, sets each to the strategy and
      leaves every other entry alone. */
  lemma {:induction false} ApplyContents(watch: map<string, Alerts.WatchEntry>, targets: seq<string>, strategy: string)
    ensures var r := Apply(watch, targets, strategy);
            (forall k :: k in r <==> k in watch || k in targets)
            && (forall k :: k in targets ==> r[k] == Alerts.WatchEntry(Some(strategy)))
            && (forall k :: k in watch && k !in targets ==> r[k] == watch[k])
  {
    if |targets| > 0 {
      var init := targets[..|targets| - 1];
      ApplyContents(watch, init, strategy);
      assert targets == init + [targets[|targets| - 1]];
    }
  }

  /** The import loop over already-split tokens: each token that resolves
      is put on the watch list under the chosen strategy and counted. */
  method ImportTokens(watch: map<string, Alerts.WatchEntry>, tokens: seq<string>, lookup: map<string, string>, strategy: string)
    returns (result: map<string, Alerts.WatchEntry>, count: nat)
    ensures count == |Targets(tokens, lookup)|
    ensures result == Apply(watch, Targets(tokens, lookup), strategy)
  {
    result, count := watch, 0;
    var i := 0;
    while i < |tokens|
      invariant 0 <= i <= |tokens|
      invariant count == |Targets(tokens[..i], lookup)|
      invariant result == Apply(watch, Targets(tokens[..i], lookup), strategy)
    {
      TargetsStep(tokens, i, lookup);
      var rc := tokens[i];
      if rc != "" {
        var target := Resolve(lookup, rc);
        var before := Targets(tokens[..i], lookup);
        if target.Some? {
          ApplyStep(watch, before, target.value, strategy);
          result := result[target.value := Alerts.WatchEntry(Some(strategy))];
          count := count + 1;
        } else {
          assert before + [] == before;
        }
      } else {
        assert Targets(tokens[..i], lookup) + [] == Targets(tokens[..i], lookup);
      }
      i := i + 1;
    }
    assert tokens[..|tokens|] == tokens;
  }

  /** The import button: every token that resolves sets its target's watch
      entry to the chosen strategy; `count` is the number of such tokens. */
  method Import(watch: map<string, Alerts.WatchEntry>, text: string, items: seq<string>, strategy: string)
    returns (result: map<string, Alerts.WatchEntry>, count: nat)
    requires forall i :: 0 <= i < |items| ==> WellFormedItem(items[i])
    ensures count == |ImportTargets(text, items)|
    ensures forall k :: k in result <==> k in watch || k in ImportTargets(text, items)
    ensures forall k :: k in ImportTargets(text, items) ==> result[k] == Alerts.WatchEntry(Some(strategy))
    ensures forall k :: k in watch && k !in ImportTargets(text, items) ==> result[k] == watch[k]
  {
    result, count := ImportTokens(watch, Tokens(text), BuildLookup(ItemCodes(items)), strategy);
    ApplyContents(watch, ImportTargets(text, items), strategy);
  }
}
