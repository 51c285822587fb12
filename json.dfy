/** The Python values the bridge reads from a decoded alert feed: what
    `json.loads` returns, the exception a Python expression may raise, and the
    coercions the bridge applies to them (`int(...)`, truthiness, `str(...)`). */
module Json {
  import opened Text

  /** The result of a Python expression that may raise: its value, or an
      exception (the bridge never inspects which one). */
  datatype Fallible<T> = Ok(value: T) | Raises

  /** A value `json.loads` can return. A JSON object becomes a dict; JSON
      `null` is Python `None`. */
  datatype Json =
    | JNull
    | JBool(b: bool)
    | JInt(i: int)
    | JReal(r: real)
    | JString(s: string)
    | JArray(items: seq<Json>)
    | JObject(fields: map<string, Json>)

  /** `json.loads(raw)`: either `JSONDecodeError` or a value. */
  datatype Parsed = Malformed | Value(v: Json)

  /** Python truthiness of a decoded value. */
  predicate Truthy(j: Json) {
    match j
    case JNull => false
    case JBool(b) => b
    case JInt(i) => i != 0
    case JReal(r) => r != 0.0
    case JString(s) => s != ""
    case JArray(items) => items != []
    case JObject(fields) => fields != map[]
  }

  /** `d.get(key, default)`; a value that is not a dict has no `get` and
      raises `AttributeError`. */
  function Get(d: Json, key: string, default: Json): (r: Fallible<Json>)
    ensures r.Raises? <==> !d.JObject?
    ensures d.JObject? ==> r.value == (if key in d.fields then d.fields[key] else default)
  {
    if !d.JObject? then Raises
    else if key in d.fields then Ok(d.fields[key])
    else Ok(default)
  }

  // ------------------------------------------------------------- int(...)

  predicate IsDigit(c: char) {
    '0' <= c <= '9'
  }

  predicate AllDigits(s: string) {
    forall k :: 0 <= k < |s| ==> IsDigit(s[k])
  }

  /** The number a run of ASCII decimal digits spells. */
  function DigitsValue(s: string): (n: nat)
    requires AllDigits(s)
  {
    if s == [] then 0
    else DigitsValue(s[..|s| - 1]) * 10 + (s[|s| - 1] as int - '0' as int)
  }

  /** The whitespace `int()` skips around its digits: the `str.isspace` set
      except the four ASCII separators U+001C to U+001F, which CPython's
      integer parser does not skip (only non-ASCII whitespace is mapped to a
      space before parsing). */
  predicate IntSpace(c: char) {
    IsSpace(c) && !(28 <= c as int <= 31)
  }

  /** The text left after dropping leading `int()` whitespace. */
  function IntTrimStart(s: string): (r: string)
    ensures |r| <= |s|
    ensures r == [] || !IntSpace(r[0])
  {
    if s != [] && IntSpace(s[0]) then IntTrimStart(s[1..]) else s
  }

  /** The text left after dropping trailing `int()` whitespace. */
  function IntTrimEnd(s: string): (r: string)
    ensures |r| <= |s|
    ensures r == [] || !IntSpace(r[|r| - 1])
  {
    if s != [] && IntSpace(s[|s| - 1]) then IntTrimEnd(s[..|s| - 1]) else s
  }

  /** The text `int()` parses: the argument without surrounding `int()`
      whitespace. */
  function IntStrip(s: string): string {
    IntTrimEnd(IntTrimStart(s))
  }

  /** No character of `s` is one of the separators U+001C to U+001F. */
  predicate NoSeparators(s: string) {
    forall k :: 0 <= k < |s| ==> !(28 <= s[k] as int <= 31)
  }

  lemma {:induction false} IntTrimStartAgrees(s: string)
    requires NoSeparators(s)
    ensures IntTrimStart(s) == TrimStart(s)
    decreases |s|
  {
    if s != [] && IsSpace(s[0]) {
      assert NoSeparators(s[1..]) by {
        forall k | 0 <= k < |s| - 1 ensures !(28 <= s[1..][k] as int <= 31) {
          assert s[1..][k] == s[k + 1];
        }
      }
      IntTrimStartAgrees(s[1..]);
    }
  }

  lemma {:induction false} IntTrimEndAgrees(s: string)
    requires NoSeparators(s)
    ensures IntTrimEnd(s) == TrimEnd(s)
    decreases |s|
  {
    if s != [] && IsSpace(s[|s| - 1]) {
      var p := s[..|s| - 1];
      assert NoSeparators(p) by {
        forall k | 0 <= k < |p| ensures !(28 <= p[k] as int <= 31) {
          assert p[k] == s[k];
        }
      }
      IntTrimEndAgrees(p);
    }
  }

  /** On text without the four separators, `int()` strips exactly what
      `str.strip()` strips. */
  lemma IntStripAgrees(s: string)
    requires NoSeparators(s)
    ensures IntStrip(s) == Strip(s)
  {
    IntTrimStartAgrees(s);
    TrimStartDropsSpaces(s);
    var t := TrimStart(s);
    assert NoSeparators(t) by {
      forall k | 0 <= k < |t| ensures !(28 <= t[k] as int <= 31) {
        assert t[k] == s[|s| - |t| + k];
      }
    }
    IntTrimEndAgrees(t);
  }

  lemma {:induction false} IntTrimStartKeepsLast(s: string)
    requires s != [] && !IntSpace(s[|s| - 1])
    ensures IntTrimStart(s) != [] && IntTrimStart(s)[|IntTrimStart(s)| - 1] == s[|s| - 1]
    decreases |s|
  {
    if IntSpace(s[0]) {
      IntTrimStartKeepsLast(s[1..]);
    }
  }

  lemma {:induction false} IntTrimEndKeepsFirst(s: string)
    requires s != [] && !IntSpace(s[0])
    ensures IntTrimEnd(s) != [] && IntTrimEnd(s)[0] == s[0]
    decreases |s|
  {
    if IntSpace(s[|s| - 1]) {
      IntTrimEndKeepsFirst(s[..|s| - 1]);
    }
  }

  /** `int(text)` for a string that has already been stripped: an optional
      sign followed by one or more digits, anything else raises `ValueError`. */
  function ParseInt(t: string): (r: Fallible<int>)
  {
    if t != [] && (t[0] == '-' || t[0] == '+') then
      var ds := t[1..];
      if ds != [] && AllDigits(ds) then
        var v: int := DigitsValue(ds);
        Ok(if t[0] == '-' then -v else v)
      else Raises
    else if t != [] && AllDigits(t) then Ok(DigitsValue(t))
    else Raises
  }

  /** Python `int(x)` of a decoded value: `bool` is an `int`, a float is
      truncated toward zero, a string is parsed after dropping the whitespace
      `int()` skips, and `None`, lists and dicts raise `TypeError`. */
  function ToInt(j: Json): (r: Fallible<int>)
    ensures j.JInt? ==> r == Ok(j.i)
    ensures j.JNull? || j.JArray? || j.JObject? ==> r.Raises?
  {
    match j
    case JBool(b) => Ok(if b then 1 else 0)
    case JInt(i) => Ok(i)
    case JReal(x) => Ok(if x >= 0.0 then x.Floor else -((-x).Floor))
    case JString(s) => ParseInt(IntStrip(s))
    case _ => Raises
  }

  /** `int()` does not skip the separators U+001C to U+001F: text that starts
      or ends with one raises `ValueError`, whatever the rest is. */
  lemma SeparatorRejected(c: char, t: string)
    requires 28 <= c as int <= 31
    ensures ToInt(JString([c] + t)).Raises?
    ensures ToInt(JString(t + [c])).Raises?
  {
    LeadingSeparator(c, t);
    TrailingSeparator(c, t);
  }

  lemma LeadingSeparator(c: char, t: string)
    requires 28 <= c as int <= 31
    ensures ParseInt(IntStrip([c] + t)).Raises?
  {
    IntTrimEndKeepsFirst([c] + t);
  }

  lemma TrailingSeparator(c: char, t: string)
    requires 28 <= c as int <= 31
    ensures ParseInt(IntStrip(t + [c])).Raises?
  {
    var y := t + [c];
    IntTrimStartKeepsLast(y);
    var r := IntTrimStart(y);
    assert IntStrip(y) == r;
    assert !IsDigit(r[|r| - 1]);
    if r[0] == '-' || r[0] == '+' {
      assert |r| > 1 ==> r[1..][|r| - 2] == r[|r| - 1];
    }
  }

  // ------------------------------------------------------------- str(...)

  function DigitChar(d: nat): char
    requires d < 10
  {
    ('0' as int + d) as char
  }

  /** Decimal spelling of a natural number, as `str(n)`. */
  function NatToString(n: nat): (s: string)
    ensures s != [] && AllDigits(s)
  {
    if n < 10 then [DigitChar(n)] else NatToString(n / 10) + [DigitChar(n % 10)]
  }

  /** Decimal spelling of an integer, as `str(i)`. */
  function IntToString(i: int): string {
    if i < 0 then "-" + NatToString(-i) else NatToString(i)
  }

  /** Reading back a spelled natural number gives the number. */
  lemma {:induction false} NatToStringRoundTrip(n: nat)
    ensures DigitsValue(NatToString(n)) == n
  {
    if n >= 10 {
      var s := NatToString(n);
      assert s[..|s| - 1] == NatToString(n / 10);
      NatToStringRoundTrip(n / 10);
    }
  }

  /** A spelled integer starts with a sign or digit and ends with a digit,
      so stripping leaves it unchanged. */
  lemma IntToStringStripped(i: int)
    ensures Strip(IntToString(i)) == IntToString(i)
    ensures IntStrip(IntToString(i)) == IntToString(i)
  {
    var s := IntToString(i);
    var ds := NatToString(if i < 0 then -i else i);
    assert s[|s| - 1] == ds[|ds| - 1];
    assert IsDigit(s[|s| - 1]) && !IsSpace(s[|s| - 1]);
    assert !IsSpace(s[0]);
    StripFixed(s);
  }

  /** `int(str(i)) == i` for every integer, also when the feed sends the
      number as a string. */
  lemma IntToStringRoundTrip(i: int)
    ensures ToInt(JString(IntToString(i))) == Ok(i)
  {
    IntToStringStripped(i);
    IntToStringParses(i);
  }

  /** The decimal spelling of an integer parses back to it. */
  lemma IntToStringParses(i: int)
    ensures ParseInt(IntToString(i)) == Ok(i)
  {
    var s := IntToString(i);
    if i < 0 {
      var ds := NatToString(-i);
      NatToStringRoundTrip(-i);
      assert s[1..] == ds;
      assert s[0] == '-';
    } else {
      NatToStringRoundTrip(i);
      assert s[0] != '-' && s[0] != '+';
    }
  }

  /** `str(x)` of a decoded value as an f-string renders it, exact for
      `None`, booleans, integers and strings. */
  function Display(j: Json): string {
    match j
    case JNull => "None"
    case JBool(b) => if b then "True" else "False"
    case JInt(i) => IntToString(i)
    case JString(s) => s
    case JReal(_) => "<float>"
    case JArray(_) => "<list>"
    case JObject(_) => "<dict>"
  }
}
