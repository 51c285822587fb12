/** `format_packet` and `make_test`: the text layout of an alert notification
    and of the manual test message. The wall-clock timestamp `now_il()` is a
    parameter `ts` (already formatted as `DD/MM/YYYY HH:MM:SS`). */
module Packet {
  import opened Text
  import opened Phases

  /** The type shown in a manual test message: "manual test". */
  const ManualTest: string := "בדיקה ידנית"

  /** `format_packet(phase, title, locs)`: glyph, then the area, alert-type and
      timestamp fields with their Hebrew labels, separated by `" | "`. */
  function FormatPacket(phase: Phase, title: string, locs: string, ts: string): string
    requires phase != None
  {
    Emoji(phase) + " איזור: " + locs + " | סוג ההתרעה: " + title + " | חותמת זמן: " + ts
  }

  /** `make_test(area_str)`. */
  function MakeTest(areas: string, ts: string): string {
    "איזור: " + areas + " | סוג ההתרעה: בדיקה ידנית | חותמת זמן: " + ts
  }

  /** A test message is an alert packet without its glyph, whose type is
      "manual test". */
  lemma MakeTestLayout(p: Phase, areas: string, ts: string)
    requires p != None
    ensures FormatPacket(p, ManualTest, areas, ts) == Emoji(p) + " " + MakeTest(areas, ts)
  {
    var tail := " | סוג ההתרעה: " + ManualTest + " | חותמת זמן: ";
    assert tail == " | סוג ההתרעה: בדיקה ידנית | חותמת זמן: ";
    assert " איזור: " == " " + "איזור: ";
    Regroup(Emoji(p), " ", "איזור: ", areas, " | סוג ההתרעה: ", ManualTest, " | חותמת זמן: ", ts);
  }

  /** Regrouping the eight pieces of a packet; stated over plain variables so
      that the solver does not unfold the literals. */
  lemma Regroup(e: string, sp: string, a: string, x: string, b: string, m: string, c: string, y: string)
    ensures e + (sp + a) + x + b + m + c + y == e + sp + (a + x + (b + m + c) + y)
  {
  }

  /** Text set off by a space on each side splits apart from its neighbours. */
  lemma WordsAround(a: string, m: string, b: string)
    ensures Words(a + (" " + m + " ") + b) == Words(a) + Words(m) + Words(b)
  {
    assert a + (" " + m + " ") + b == a + " " + (m + " " + b);
    WordsAcrossSpace(a, m + " " + b);
    WordsAcrossSpace(m, b);
  }

  /** Three words with single spaces between them split back into those
      three words. */
  lemma ThreeWords(x: string, y: string, z: string)
    requires IsWord(x) && IsWord(y) && IsWord(z)
    ensures Words(x + " " + y + " " + z) == [x, y, z]
  {
    WordsAcrossSpace(x + " " + y, z);
    WordsAcrossSpace(x, y);
    WordsOfWord(x);
    WordsOfWord(y);
    WordsOfWord(z);
  }

  /** The alert-type label splits into its three words. */
  lemma KindWords()
    ensures Words("| סוג ההתרעה:") == ["|", "סוג", "ההתרעה:"]
  {
    assert "| סוג ההתרעה:" == "|" + " " + "סוג" + " " + "ההתרעה:";
    ThreeWords("|", "סוג", "ההתרעה:");
  }

  /** The timestamp label splits into its three words. */
  lemma StampWords()
    ensures Words("| חותמת זמן:") == ["|", "חותמת", "זמן:"]
  {
    assert "| חותמת זמן:" == "|" + " " + "חותמת" + " " + "זמן:";
    ThreeWords("|", "חותמת", "זמן:");
  }

  /** The area label is a single word. */
  lemma AreaWord()
    ensures IsWord("איזור:")
  {
  }

  /** The words of any text laid out as a packet: a glyph `e` and the labels
      `area`, `kind` and `stamp`, each set off by spaces, around the three
      variable parts. */
  lemma LayoutWords(e: string, area: string, kind: string, stamp: string,
                    locs: string, title: string, ts: string,
                    kindWords: seq<string>, stampWords: seq<string>)
    requires IsWord(e) && IsWord(area)
    requires Words(kind) == kindWords && Words(stamp) == stampWords
    ensures Words(e + (" " + area + " ") + locs + (" " + kind + " ") + title + (" " + stamp + " ") + ts) ==
      [e, area] + Words(locs) + kindWords + Words(title) + stampWords + Words(ts)
  {
    var x1 := e + (" " + area + " ") + locs;
    var x2 := x1 + (" " + kind + " ") + title;
    WordsAround(e, area, locs);
    WordsAround(x1, kind, title);
    WordsAround(x2, stamp, ts);
    WordsOfWord(e);
    WordsOfWord(area);
  }

  /** The words of a packet led by any one-word glyph `e`. */
  lemma LedWords(e: string, title: string, locs: string, ts: string)
    requires IsWord(e)
    ensures Words(e + " איזור: " + locs + " | סוג ההתרעה: " + title + " | חותמת זמן: " + ts) ==
      [e, "איזור:"] + Words(locs) + ["|", "סוג", "ההתרעה:"] + Words(title) +
      ["|", "חותמת", "זמן:"] + Words(ts)
  {
    assert " איזור: " == " " + "איזור:" + " ";
    assert " | סוג ההתרעה: " == " " + "| סוג ההתרעה:" + " ";
    assert " | חותמת זמן: " == " " + "| חותמת זמן:" + " ";
    KindWords();
    StampWords();
    AreaWord();
    LayoutWords(e, "איזור:", "| סוג ההתרעה:", "| חותמת זמן:", locs, title, ts,
                ["|", "סוג", "ההתרעה:"], ["|", "חותמת", "זמן:"]);
  }

  /** The words of an alert packet: the glyph and labels, then the words of the
      locations, of the title and of the timestamp, each in place. No word of
      the locations or of the title is lost or merged with a label. */
  lemma PacketWords(p: Phase, title: string, locs: string, ts: string)
    requires p != None
    ensures Words(FormatPacket(p, title, locs, ts)) ==
      [Emoji(p), "איזור:"] + Words(locs) + ["|", "סוג", "ההתרעה:"] + Words(title) +
      ["|", "חותמת", "זמן:"] + Words(ts)
  {
    assert IsWord(Emoji(p));
    LedWords(Emoji(p), title, locs, ts);
  }
}
