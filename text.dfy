/** Python string behaviour the bridge relies on: `str.isspace`, `str.strip`,
    `str.split()` with no separator, `sep.join(...)`, and the UTF-8 byte length
    that `len(s.encode())` measures. */
module Text {

  /** Python's `str.isspace` for one character (the whitespace set that
      `str.split()` and `str.strip()` use). */
  predicate IsSpace(c: char) {
    var n := c as int;
    (9 <= n <= 13) || (28 <= n <= 32) || n == 0x85 || n == 0xA0 || n == 0x1680 ||
    (0x2000 <= n <= 0x200A) || n == 0x2028 || n == 0x2029 || n == 0x202F ||
    n == 0x205F || n == 0x3000
  }

  /** A word as `str.split()` yields it: non-empty, no whitespace inside. */
  predicate IsWord(w: string) {
    w != [] && forall k :: 0 <= k < |w| ==> !IsSpace(w[k])
  }

  predicate AllWords(ws: seq<string>) {
    forall k :: 0 <= k < |ws| ==> IsWord(ws[k])
  }

  // ---------------------------------------------------------------- UTF-8

  /** Bytes one code point takes in UTF-8 (section 3 of RFC 3629). Dafny
      characters are Unicode scalar values, so surrogates cannot occur. */
  function Utf8Width(c: char): (w: nat)
    ensures 1 <= w <= 4
    ensures w == 1 <==> (c as int) < 0x80
  {
    var n := c as int;
    if n < 0x80 then 1 else if n < 0x800 then 2 else if n < 0x10000 then 3 else 4
  }

  /** `len(s.encode("utf-8"))`. */
  function Utf8Len(s: string): (n: nat)
    ensures n >= |s|
    ensures n <= 4 * |s|
  {
    if s == [] then 0 else Utf8Width(s[0]) + Utf8Len(s[1..])
  }

  lemma {:induction false} Utf8LenAppend(a: string, b: string)
    ensures Utf8Len(a + b) == Utf8Len(a) + Utf8Len(b)
  {
    if a == [] {
      assert a + b == b;
    } else {
      assert (a + b)[0] == a[0];
      assert (a + b)[1..] == a[1..] + b;
      Utf8LenAppend(a[1..], b);
    }
  }

  // ---------------------------------------------------------------- strip

  /** `s.lstrip()`: the suffix left after dropping leading whitespace. */
  function TrimStart(s: string): (r: string)
    ensures |r| <= |s|
    ensures r == [] || !IsSpace(r[0])
  {
    if s != [] && IsSpace(s[0]) then TrimStart(s[1..]) else s
  }

  /** `s.rstrip()`: the prefix left after dropping trailing whitespace. */
  function TrimEnd(s: string): (r: string)
    ensures |r| <= |s|
    ensures r == [] || !IsSpace(r[|r| - 1])
  {
    if s != [] && IsSpace(s[|s| - 1]) then TrimEnd(s[..|s| - 1]) else s
  }

  /** `lstrip` leaves a suffix and removes only whitespace. */
  lemma {:induction false} TrimStartDropsSpaces(s: string)
    ensures TrimStart(s) == s[|s| - |TrimStart(s)|..]
    ensures forall k :: 0 <= k < |s| - |TrimStart(s)| ==> IsSpace(s[k])
    decreases |s|
  {
    if s != [] && IsSpace(s[0]) {
      TrimStartDropsSpaces(s[1..]);
    }
  }

  /** `rstrip` leaves a prefix and removes only whitespace. */
  lemma {:induction false} TrimEndDropsSpaces(s: string)
    ensures TrimEnd(s) == s[..|TrimEnd(s)|]
    ensures forall k :: |TrimEnd(s)| <= k < |s| ==> IsSpace(s[k])
    decreases |s|
  {
    if s != [] && IsSpace(s[|s| - 1]) {
      TrimEndDropsSpaces(s[..|s| - 1]);
    }
  }

  /** `s.strip()`. */
  function Strip(s: string): string {
    TrimEnd(TrimStart(s))
  }

  /** Stripping leaves a string alone exactly when it neither starts nor ends
      with whitespace. */
  lemma StripFixed(s: string)
    ensures Strip(s) == s <==> (s == [] || (!IsSpace(s[0]) && !IsSpace(s[|s| - 1])))
  {
    if s != [] && !IsSpace(s[0]) && !IsSpace(s[|s| - 1]) {
      assert TrimStart(s) == s;
    }
  }

  // ---------------------------------------------------------------- split

  function Emit(cur: string): seq<string> {
    if cur == [] then [] else [cur]
  }

  /** Left-to-right scan behind `str.split()`: `cur` is the word being read. */
  function Scan(s: string, cur: string): seq<string>
    decreases |s|
  {
    if s == [] then Emit(cur)
    else if IsSpace(s[0]) then Emit(cur) + Scan(s[1..], "")
    else Scan(s[1..], cur + [s[0]])
  }

  /** `s.split()`: the maximal runs of non-whitespace characters, in order. */
  function Words(s: string): seq<string> {
    Scan(s, "")
  }

  /** `sep.join(items)`. */
  function Join(sep: string, items: seq<string>): string {
    if items == [] then ""
    else if |items| == 1 then items[0]
    else items[0] + sep + Join(sep, items[1..])
  }

  /** `" ".join(s.split())`: the message with its whitespace normalised. */
  function Normalize(s: string): string {
    Join(" ", Words(s))
  }

  lemma {:induction false} ScanYieldsWords(s: string, cur: string)
    requires forall k :: 0 <= k < |cur| ==> !IsSpace(cur[k])
    ensures AllWords(Scan(s, cur))
    decreases |s|
  {
    if s == [] {
    } else if IsSpace(s[0]) {
      ScanYieldsWords(s[1..], "");
    } else {
      ScanYieldsWords(s[1..], cur + [s[0]]);
    }
  }

  /** Every item of `s.split()` is a word. */
  lemma WordsAreWords(s: string)
    ensures AllWords(Words(s))
  {
    ScanYieldsWords(s, "");
  }

  /** Reading a run of non-space characters only extends the current word. */
  lemma {:induction false} ScanThroughWord(w: string, rest: string, cur: string)
    requires forall k :: 0 <= k < |w| ==> !IsSpace(w[k])
    ensures Scan(w + rest, cur) == Scan(rest, cur + w)
    decreases |w|
  {
    if w == [] {
      assert w + rest == rest;
      assert cur + w == cur;
    } else {
      assert (w + rest)[0] == w[0];
      assert (w + rest)[1..] == w[1..] + rest;
      ScanThroughWord(w[1..], rest, cur + [w[0]]);
      assert cur + [w[0]] + w[1..] == cur + w;
    }
  }

  /** Splitting a space-joined list of words gives the list back. */
  lemma {:induction false} WordsOfJoin(ws: seq<string>)
    requires AllWords(ws)
    ensures Words(Join(" ", ws)) == ws
  {
    if ws == [] {
    } else if |ws| == 1 {
      ScanThroughWord(ws[0], "", "");
      assert ws[0] + "" == ws[0];
      assert "" + ws[0] == ws[0];
    } else {
      var rest := Join(" ", ws[1..]);
      assert Join(" ", ws) == ws[0] + (" " + rest);
      ScanThroughWord(ws[0], " " + rest, "");
      assert "" + ws[0] == ws[0];
      assert (" " + rest)[1..] == rest;
      WordsOfJoin(ws[1..]);
      assert ws == [ws[0]] + ws[1..];
    }
  }

  /** Joining two non-empty lists puts exactly one separator between them. */
  lemma {:induction false} JoinAppend(sep: string, a: seq<string>, b: seq<string>)
    requires a != [] && b != []
    ensures Join(sep, a + b) == Join(sep, a) + sep + Join(sep, b)
  {
    if |a| == 1 {
      assert (a + b)[1..] == b;
    } else {
      assert (a + b)[1..] == a[1..] + b;
      JoinAppend(sep, a[1..], b);
    }
  }

  /** A space-joined list of words is empty only when the list is, and then
      it starts and ends with a non-space character. */
  lemma {:induction false} JoinWordsShape(ws: seq<string>)
    requires AllWords(ws)
    ensures Join(" ", ws) == [] <==> ws == []
    ensures ws != [] ==> Join(" ", ws)[0] == ws[0][0]
    ensures ws != [] ==> Join(" ", ws)[|Join(" ", ws)| - 1] == ws[|ws| - 1][|ws[|ws| - 1]| - 1]
  {
    if |ws| > 1 {
      JoinWordsShape(ws[1..]);
    }
  }

  /** One more word adds its bytes plus one separator byte. */
  lemma JoinWordsLen(cur: seq<string>, w: string)
    requires cur != []
    ensures Utf8Len(Join(" ", cur + [w])) == Utf8Len(Join(" ", cur)) + 1 + Utf8Len(w)
  {
    JoinAppend(" ", cur, [w]);
    Utf8LenAppend(Join(" ", cur) + " ", w);
    Utf8LenAppend(Join(" ", cur), " ");
  }

  /** `f"{buf} {word}".strip()` for `buf` the words read so far, space-joined:
      the stripped result is the words with `word` added. */
  lemma StripAppendWord(cur: seq<string>, w: string)
    requires AllWords(cur) && IsWord(w)
    ensures Strip(Join(" ", cur) + " " + w) == Join(" ", cur + [w])
  {
    if cur == [] {
      assert Join(" ", cur) + " " + w == " " + w;
      assert TrimStart(" " + w) == TrimStart(w);
      StripFixed(w);
    } else {
      JoinAppend(" ", cur, [w]);
      var s := Join(" ", cur + [w]);
      assert AllWords(cur + [w]);
      JoinWordsShape(cur + [w]);
      StripFixed(s);
    }
  }

  /** A single space between two texts separates their words. */
  lemma {:induction false} ScanAcrossSpace(a: string, b: string, cur: string)
    ensures Scan(a + " " + b, cur) == Scan(a, cur) + Scan(b, "")
    decreases |a|
  {
    if a == [] {
      assert a + " " + b == " " + b;
      assert (" " + b)[1..] == b;
    } else {
      assert (a + " " + b)[0] == a[0];
      assert (a + " " + b)[1..] == a[1..] + " " + b;
      if IsSpace(a[0]) {
        ScanAcrossSpace(a[1..], b, "");
      } else {
        ScanAcrossSpace(a[1..], b, cur + [a[0]]);
      }
    }
  }

  /** `(a + " " + b).split() == a.split() + b.split()`. */
  lemma WordsAcrossSpace(a: string, b: string)
    ensures Words(a + " " + b) == Words(a) + Words(b)
  {
    ScanAcrossSpace(a, b, "");
  }

  /** A word splits into itself. */
  lemma WordsOfWord(w: string)
    requires IsWord(w)
    ensures Words(w) == [w]
  {
    WordsOfJoin([w]);
  }

  /** Joining with a non-empty separator gives the empty string only for no
      items or a single empty item. */
  lemma JoinEmptyIff(sep: string, items: seq<string>)
    requires sep != ""
    ensures Join(sep, items) == "" <==> items == [] || items == [""]
  {
    if |items| > 1 {
      assert |Join(sep, items)| >= |sep|;
    }
  }

  lemma {:induction false} ScanNeverLonger(s: string, cur: string)
    ensures Utf8Len(Join(" ", Scan(s, cur))) <= Utf8Len(cur) + Utf8Len(s)
    decreases |s|
  {
    if s == [] {
    } else if IsSpace(s[0]) {
      var rest := Scan(s[1..], "");
      ScanNeverLonger(s[1..], "");
      if cur != [] && rest != [] {
        JoinAppend(" ", [cur], rest);
        Utf8LenAppend(cur + " ", Join(" ", rest));
        Utf8LenAppend(cur, " ");
      } else if cur != [] {
        assert Emit(cur) + rest == [cur];
      } else {
        assert Emit(cur) + rest == rest;
      }
    } else {
      ScanNeverLonger(s[1..], cur + [s[0]]);
      Utf8LenAppend(cur, [s[0]]);
    }
  }

  /** Normalising whitespace never makes a text longer in UTF-8. */
  lemma NormalizeNeverLonger(s: string)
    ensures Utf8Len(Normalize(s)) <= Utf8Len(s)
  {
    ScanNeverLonger(s, "");
  }
}
