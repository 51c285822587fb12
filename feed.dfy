/** Classifying what the alert feed returned: the idle and HTML sniff,
    `parse_alerts`, the category read, and `flattened_locs`. */
module Feed {
  import opened Text
  import opened Json

  // ------------------------------------------------------------ idle bodies

  /** `IDLE_PATTERNS`: the two-escape text `\r\n` (four characters), the same
      wrapped in double quotes, `OK`, and the empty body. */
  const IdlePatterns: set<string> := {"\\r\\n", "\"\\r\\n\"", "OK", ""}

  function AsciiLower(c: char): char {
    if 'A' <= c <= 'Z' then (c as int + 32) as char else c
  }

  /** `s` starts with the lower-case text `p`, ignoring ASCII case. Python's
      `re.I` folds no other character onto the letters of the two HTML
      prefixes, so ASCII folding is exact here. */
  predicate StartsWithNoCase(s: string, p: string) {
    |p| <= |s| && forall k :: 0 <= k < |p| ==> AsciiLower(s[k]) == p[k]
  }

  /** `_HTML_RE.match(raw)`: the body starts with `<!doctype html>` or `<html`
      in any letter case. */
  predicate LooksLikeHtml(raw: string) {
    StartsWithNoCase(raw, "<!doctype html>") || StartsWithNoCase(raw, "<html")
  }

  /** The test that makes a poll sleep without parsing the body. A body that
      opens a JSON list or object is never taken for idle. */
  predicate IsIdle(raw: string)
    ensures raw != [] && (raw[0] == '[' || raw[0] == '{') ==> !IsIdle(raw)
  {
    raw in IdlePatterns || LooksLikeHtml(raw)
  }

  /** `s` with its ASCII letters lower-cased, as `re.I` compares them. */
  function LowerAscii(s: string): string {
    seq(|s|, k requires 0 <= k < |s| => AsciiLower(s[k]))
  }

  /** `StartsWithNoCase` compares the lower-cased prefix of `s` with `p`. */
  lemma PrefixNoCase(s: string, p: string)
    ensures StartsWithNoCase(s, p) <==> |p| <= |s| && LowerAscii(s[..|p|]) == p
  {
    if |p| <= |s| {
      var low := LowerAscii(s[..|p|]);
      assert forall k :: 0 <= k < |p| ==> low[k] == AsciiLower(s[k]);
      if StartsWithNoCase(s, p) {
        assert low == p;
      }
    }
  }

  /** The HTML sniff holds exactly when the body's first 15 (or 5)
      characters, lower-cased, are `<!doctype html>` (or `<html`): every
      letter case of the two prefixes is recognised, whatever follows. */
  lemma HtmlAnyCase(raw: string)
    ensures LooksLikeHtml(raw) <==>
              (|raw| >= 15 && LowerAscii(raw[..15]) == "<!doctype html>") ||
              (|raw| >= 5 && LowerAscii(raw[..5]) == "<html")
    ensures LooksLikeHtml(raw) ==> IsIdle(raw)
  {
    PrefixNoCase(raw, "<!doctype html>");
    PrefixNoCase(raw, "<html");
  }

  // ------------------------------------------------------------ parse_alerts

  /** `parse_alerts(raw)` given what `json.loads(raw)` produced: nothing for
      malformed JSON or a JSON string, a list as it is, any other value as a
      one-element list. */
  function ParseAlerts(p: Parsed): (r: seq<Json>)
    ensures r == [] <==> p.Malformed? || p.v.JString? || p.v == JArray([])
    ensures p.Value? && p.v.JArray? ==> r == p.v.items
    ensures p.Value? && !p.v.JArray? && !p.v.JString? ==> r == [p.v]
  {
    if p.Malformed? then []
    else match p.v
      case JString(_) => []
      case JArray(items) => items
      case _ => [p.v]
  }

  /** The alerts are a normal form: re-reading them as a decoded list gives
      the same alerts back, and more than one alert only comes from a list. */
  lemma ParseAlertsNormal(p: Parsed)
    ensures ParseAlerts(Value(JArray(ParseAlerts(p)))) == ParseAlerts(p)
    ensures |ParseAlerts(p)| > 1 ==> p.Value? && p.v.JArray?
  {
  }

  // ------------------------------------------------------------ categories

  /** `int(a.get("cat", a.get("category", 0)))`: `cat` whenever the key is
      present (even with a value that does not convert), else `category`, else
      0. An alert that is not a dict raises. */
  function CategoryOf(a: Json): (r: Fallible<int>)
    ensures r.Ok? ==> a.JObject?
    ensures !a.JObject? ==> r.Raises?
    ensures a.JObject? && "cat" in a.fields ==> r == ToInt(a.fields["cat"])
    ensures a.JObject? && "cat" !in a.fields && "category" in a.fields ==>
              r == ToInt(a.fields["category"])
    ensures a.JObject? && "cat" !in a.fields && "category" !in a.fields ==> r == Ok(0)
  {
    match Get(a, "category", JInt(0))
    case Raises => Raises
    case Ok(fallback) =>
      match Get(a, "cat", fallback)
      case Raises => Raises
      case Ok(v) => ToInt(v)
  }

  /** A category the feed sends as decimal text is read as that number, and
      `category` is then never looked at. */
  lemma CategoryAsText(fields: map<string, Json>, n: int)
    ensures CategoryOf(JObject(fields["cat" := JString(IntToString(n))])) == Ok(n)
  {
    IntToStringRoundTrip(n);
  }

  // ------------------------------------------------------------ flattened_locs

  /** The general-area text used when no location was collected. */
  const General: string := "כללי"

  /** What one alert adds to `out`: the items of a list `data`, a string
      `data` itself, nothing for any other `data` or for an alert whose
      category is not in `cats`. */
  function Contribution(a: Json, cats: seq<int>): (r: Fallible<seq<Json>>)
    ensures r.Raises? <==> CategoryOf(a).Raises?
    ensures r.Ok? && CategoryOf(a).value !in cats ==> r.value == []
    ensures (r.Ok? && CategoryOf(a).value in cats && "data" in a.fields && a.fields["data"].JArray?)
              ==> r.value == a.fields["data"].items
    ensures (r.Ok? && CategoryOf(a).value in cats && "data" in a.fields && a.fields["data"].JString?)
              ==> r.value == [a.fields["data"]]
    ensures r.Ok? && CategoryOf(a).value in cats &&
            ("data" !in a.fields || !(a.fields["data"].JArray? || a.fields["data"].JString?)) ==>
              r.value == []
  {
    match CategoryOf(a)
    case Raises => Raises
    case Ok(c) =>
      if c !in cats then Ok([])
      else
        var d := if "data" in a.fields then a.fields["data"] else JArray([]);
        if d.JArray? then Ok(d.items)
        else if d.JString? then Ok([d])
        else Ok([])
  }

  /** The list `out` after the loop has read `alerts` in order. */
  function Collect(alerts: seq<Json>, cats: seq<int>): Fallible<seq<Json>>
    decreases |alerts|
  {
    if alerts == [] then Ok([])
    else
      match Collect(alerts[..|alerts| - 1], cats)
      case Raises => Raises
      case Ok(out) =>
        match Contribution(alerts[|alerts| - 1], cats)
        case Raises => Raises
        case Ok(c) => Ok(out + c)
  }

  predicate AllStrings(items: seq<Json>) {
    forall k :: 0 <= k < |items| ==> items[k].JString?
  }

  function Texts(items: seq<Json>): (r: seq<string>)
    requires AllStrings(items)
    ensures |r| == |items|
    ensures forall k :: 0 <= k < |items| ==> r[k] == items[k].s
  {
    if items == [] then [] else [items[0].s] + Texts(items[1..])
  }

  /** `", ".join(out) or "כללי"`; joining anything but strings raises
      `TypeError`. */
  function JoinLocations(out: seq<Json>): (r: Fallible<string>)
    ensures r.Ok? <==> AllStrings(out)
    ensures r.Ok? ==> r.value != ""
    ensures r.Ok? && Join(", ", Texts(out)) != "" ==> r.value == Join(", ", Texts(out))
    ensures r.Ok? && Join(", ", Texts(out)) == "" ==> r.value == General
  {
    if !AllStrings(out) then Raises
    else
      var joined := Join(", ", Texts(out));
      Ok(if joined == "" then General else joined)
  }

  /** `flattened_locs(alerts, cats)`. */
  function Locations(alerts: seq<Json>, cats: seq<int>): (r: Fallible<string>)
    ensures r.Ok? ==> r.value != ""
  {
    match Collect(alerts, cats)
    case Raises => Raises
    case Ok(out) => JoinLocations(out)
  }

  /** The loop of `flattened_locs`, extending `out` alert by alert. */
  method FlattenedLocs(alerts: seq<Json>, cats: seq<int>) returns (r: Fallible<string>)
    ensures r == Locations(alerts, cats)
  {
    var out: seq<Json> := [];
    for i := 0 to |alerts|
      invariant Collect(alerts[..i], cats) == Ok(out)
    {
      assert alerts[..i + 1][..i] == alerts[..i];
      var c := Contribution(alerts[i], cats);
      if c.Raises? {
        CollectRaisesLater(alerts, cats, i + 1);
        return Raises;
      }
      out := out + c.value;
    }
    assert alerts[..|alerts|] == alerts;
    r := JoinLocations(out);
  }

  /** Once the loop has raised, reading further alerts cannot undo it. */
  lemma {:induction false} CollectRaisesLater(alerts: seq<Json>, cats: seq<int>, i: nat)
    requires i <= |alerts|
    requires Collect(alerts[..i], cats).Raises?
    ensures Collect(alerts, cats).Raises?
    decreases |alerts| - i
  {
    if i < |alerts| {
      assert alerts[..i + 1][..i] == alerts[..i];
      CollectRaisesLater(alerts, cats, i + 1);
    } else {
      assert alerts[..i] == alerts;
    }
  }

  /** The collected data of two runs of alerts is the first run's followed by
      the second's: alerts are read in input order. */
  lemma {:induction false} CollectAppend(a: seq<Json>, b: seq<Json>, cats: seq<int>)
    ensures Collect(a + b, cats) ==
      (match Collect(a, cats)
       case Raises => Raises
       case Ok(x) =>
         match Collect(b, cats)
         case Raises => Raises
         case Ok(y) => Ok(x + y))
    decreases |b|
  {
    if b == [] {
      assert a + b == a;
      assert Collect(b, cats) == Ok([]);
      if Collect(a, cats).Ok? {
        assert Collect(a, cats).value + [] == Collect(a, cats).value;
      }
    } else {
      var n := |b| - 1;
      assert (a + b)[..|a + b| - 1] == a + b[..n];
      assert (a + b)[|a + b| - 1] == b[n];
      CollectAppend(a, b[..n], cats);
      if Collect(a, cats).Ok? && Collect(b[..n], cats).Ok? && Contribution(b[n], cats).Ok? {
        var x := Collect(a, cats).value;
        var y := Collect(b[..n], cats).value;
        assert x + y + Contribution(b[n], cats).value == x + (y + Contribution(b[n], cats).value);
      }
    }
  }

  /** Every alert's category can be read. */
  predicate AllReadable(alerts: seq<Json>) {
    forall k :: 0 <= k < |alerts| ==> CategoryOf(alerts[k]).Ok?
  }

  lemma ReadableSplit(alerts: seq<Json>)
    requires alerts != []
    ensures AllReadable(alerts) <==>
            AllReadable(alerts[..|alerts| - 1]) && CategoryOf(alerts[|alerts| - 1]).Ok?
  {
    var n := |alerts| - 1;
    assert forall k :: 0 <= k < n ==> alerts[..n][k] == alerts[k];
  }

  /** The loop raises exactly when some alert's category cannot be read; the
      category of an alert outside `cats` is still converted. */
  lemma {:induction false} CollectRaisesIff(alerts: seq<Json>, cats: seq<int>)
    ensures Collect(alerts, cats).Ok? <==> AllReadable(alerts)
    decreases |alerts|
  {
    if alerts != [] {
      CollectRaisesIff(alerts[..|alerts| - 1], cats);
      ReadableSplit(alerts);
    }
  }

  /** One alert of a category in `cats` whose `data` is a list of strings
      contributes exactly those strings, in order. */
  lemma OneAlertLocations(fields: map<string, Json>, cats: seq<int>)
    requires "cat" in fields && ToInt(fields["cat"]).Ok? && ToInt(fields["cat"]).value in cats
    requires "data" in fields && fields["data"].JArray? && AllStrings(fields["data"].items)
    requires Join(", ", Texts(fields["data"].items)) != ""
    ensures Locations([JObject(fields)], cats) == Ok(Join(", ", Texts(fields["data"].items)))
  {
    var a := JObject(fields);
    var items := fields["data"].items;
    assert Contribution(a, cats) == Ok(items);
    assert [a][..0] == [];
    assert Collect([a], cats) == Ok([] + items);
    assert [] + items == items;
    assert JoinLocations(items) == Ok(Join(", ", Texts(items)));
  }

  /** When no alert contributes, the locations read "כללי". */
  lemma NoLocationsIsGeneral(alerts: seq<Json>, cats: seq<int>)
    requires Collect(alerts, cats) == Ok([])
    ensures Locations(alerts, cats) == Ok(General)
  {
    assert Texts([]) == [];
  }
}
