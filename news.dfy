/** One pass of the news loop over the feed entries: newest-last entries are
    walked from the end, an entry whose link is empty or already seen is
    skipped, and every other entry is announced once and its link
    remembered. */
module News {
  import opened Text
  import opened Chunker
  import opened Transport

  /** A feed entry as `entry.get('link', '')` and `entry.get('title', '')`
      read it; a missing key is the empty string. */
  datatype Entry = Entry(link: string, title: string)

  /** An entry chosen for sending, with its link and title stripped. */
  datatype Dispatch = Dispatch(link: string, title: string)

  /** `seen_news` after the pass, and the entries sent, in sending order. */
  datatype NewsResult = NewsResult(seen: set<string>, dispatched: seq<Dispatch>)

  /** The glyph that opens every news message. */
  const NewsGlyph: string := "📰"

  /** The messages one entry is sent as: `"📰 title | link"` when that fits in
      `MAX_CHUNK_LEN` bytes, else `"📰 title"` and then the link alone. */
  function NewsMessages(d: Dispatch): seq<string> {
    var msg := NewsGlyph + " " + d.title;
    var full := msg + " | " + d.link;
    if Utf8Len(full) <= MaxChunkLen then [full] else [msg, d.link]
  }

  /** An entry leaves as one message `"📰 title | link"` that fits in a
      fragment, or, when that would not fit, as `"📰 title"` followed by the
      link alone. */
  lemma NewsMessagesShape(d: Dispatch)
    ensures |NewsMessages(d)| == 1 || |NewsMessages(d)| == 2
    ensures |NewsMessages(d)| == 1 ==> Utf8Len(NewsMessages(d)[0]) <= MaxChunkLen
    ensures |NewsMessages(d)| == 2 <==>
              Utf8Len(NewsGlyph + " " + d.title + " | " + d.link) > MaxChunkLen
    ensures |NewsMessages(d)| == 2 ==> NewsMessages(d)[1] == d.link
    ensures NewsMessages(d)[0] ==
              NewsGlyph + " " + d.title + (if |NewsMessages(d)| == 1 then " | " + d.link else "")
  {
  }

  /** The messages for several entries, in order. */
  function Messages(ds: seq<Dispatch>): seq<string>
    decreases |ds|
  {
    if ds == [] then [] else Messages(ds[..|ds| - 1]) + NewsMessages(ds[|ds| - 1])
  }

  /** An entry with its link and title stripped, as the loop reads them. */
  function Candidate(e: Entry): Dispatch {
    Dispatch(Strip(e.link), Strip(e.title))
  }

  /** The entries of the feed, each stripped. */
  function Candidates(entries: seq<Entry>): (r: seq<Dispatch>)
    ensures |r| == |entries|
    decreases |entries|
  {
    if entries == [] then []
    else Candidates(entries[..|entries| - 1]) + [Candidate(entries[|entries| - 1])]
  }

  /** Stripping the feed strips each entry in place. */
  lemma {:induction false} CandidateAt(entries: seq<Entry>, k: nat)
    requires k < |entries|
    ensures Candidates(entries)[k] == Candidate(entries[k])
    decreases |entries|
  {
    var n := |entries| - 1;
    if k < n {
      CandidateAt(entries[..n], k);
    }
  }

  /** The body of the `for entry in reversed(feed.entries)` loop, on the
      stripped entry: skip an empty or seen link, else send and remember. */
  function NewsStep(seen: set<string>, d: Dispatch): (r: NewsResult)
    ensures seen <= r.seen
  {
    if d.link == "" || d.link in seen then NewsResult(seen, [])
    else NewsResult(seen + {d.link}, [d])
  }

  /** The loop over stripped entries: the last one first. */
  function Pass(seen: set<string>, ds: seq<Dispatch>): NewsResult
    decreases |ds|
  {
    if ds == [] then NewsResult(seen, [])
    else
      var first := NewsStep(seen, ds[|ds| - 1]);
      var rest := Pass(first.seen, ds[..|ds| - 1]);
      NewsResult(rest.seen, first.dispatched + rest.dispatched)
  }

  /** One pass of the news loop over the feed's entries. */
  function NewsPoll(seen: set<string>, entries: seq<Entry>): NewsResult {
    Pass(seen, Candidates(entries))
  }

  /** A loop that walks `items` from the end, having sent `done` and holding
      `seen`, reaches `goal` once the first `i` items are handled; handling
      item `i - 1` keeps it on course for the first `i - 1`. */
  lemma PassBackStep(seen: set<string>, items: seq<Dispatch>, i: nat,
                     done: seq<Dispatch>, goal: NewsResult)
    requires 0 < i <= |items|
    requires goal.seen == Pass(seen, items[..i]).seen
    requires goal.dispatched == done + Pass(seen, items[..i]).dispatched
    ensures goal.seen == Pass(NewsStep(seen, items[i - 1]).seen, items[..i - 1]).seen
    ensures goal.dispatched == (done + NewsStep(seen, items[i - 1]).dispatched) +
                               Pass(NewsStep(seen, items[i - 1]).seen, items[..i - 1]).dispatched
  {
    assert items[..i][..i - 1] == items[..i - 1];
    assert items[..i][i - 1] == items[i - 1];
  }

  /** The walk from the end starts with every stripped entry left. */
  lemma PassStart(seen: set<string>, entries: seq<Entry>)
    ensures Pass(seen, Candidates(entries)[..|entries|]) == NewsPoll(seen, entries)
  {
    assert Candidates(entries)[..|entries|] == Candidates(entries);
  }

  /** With no entry left, the walk has sent everything it was to send. */
  lemma PassFinish(seen: set<string>, items: seq<Dispatch>, done: seq<Dispatch>, goal: NewsResult)
    requires goal.seen == Pass(seen, items[..0]).seen
    requires goal.dispatched == done + Pass(seen, items[..0]).dispatched
    ensures goal.seen == seen && goal.dispatched == done
  {
    assert items[..0] == [];
    assert done + [] == done;
  }

  /** One entry sent is sent as its own messages. */
  lemma MessagesOne(d: Dispatch)
    ensures Messages([d]) == NewsMessages(d)
  {
    assert [d][..0] == [];
  }

  /** The messages of two runs of entries, one after the other. */
  lemma {:induction false} MessagesConcat(a: seq<Dispatch>, b: seq<Dispatch>)
    ensures Messages(a + b) == Messages(a) + Messages(b)
    decreases |b|
  {
    if b == [] {
      assert a + b == a;
    } else {
      var n := |b| - 1;
      assert (a + b)[..|a + b| - 1] == a + b[..n];
      assert (a + b)[|a + b| - 1] == b[n];
      MessagesConcat(a, b[..n]);
      var last := NewsMessages(b[n]);
      assert Messages(a) + Messages(b[..n]) + last == Messages(a) + (Messages(b[..n]) + last);
    }
  }


  /** The fragments an entry leaves as: those of the combined message when
      it fits, else those of the title message followed by the link's. */
  lemma NewsFrames(ch: int, link: string, title: string)
    ensures var msg := NewsGlyph + " " + title;
            var full := msg + " | " + link;
            Transmit(ch, NewsMessages(Dispatch(link, title))) ==
              if Utf8Len(full) <= MaxChunkLen then Frames(ch, full)
              else Frames(ch, msg) + Frames(ch, link)
  {
    var msg := NewsGlyph + " " + title;
    var full := msg + " | " + link;
    if Utf8Len(full) <= MaxChunkLen {
      TransmitOne(ch, full);
    } else {
      TransmitTwo(ch, msg, link);
    }
  }

  // ------------------------------------------------------------ properties

  /** The non-empty links of `ds`. */
  function Links(ds: seq<Dispatch>): set<string>
    decreases |ds|
  {
    if ds == [] then {}
    else
      var link := ds[|ds| - 1].link;
      Links(ds[..|ds| - 1]) + (if link != "" then {link} else {})
  }

  /** The links of the dispatched items. */
  function SentLinks(ds: seq<Dispatch>): set<string> {
    set k | 0 <= k < |ds| :: ds[k].link
  }

  /** No link is sent twice within one pass. */
  predicate DistinctLinks(ds: seq<Dispatch>) {
    forall i, j :: 0 <= i < j < |ds| ==> ds[i].link != ds[j].link
  }

  /** What one entry does: nothing, or one dispatch of a fresh non-empty link
      that is then seen. */
  lemma StepFacts(seen: set<string>, d: Dispatch)
    ensures var r := NewsStep(seen, d);
            (r.dispatched == [] && r.seen == seen) ||
            (|r.dispatched| == 1 && r.dispatched[0].link != "" &&
             r.dispatched[0].link !in seen && r.seen == seen + {r.dispatched[0].link})
    ensures NewsStep(seen, d).seen == seen + (if d.link != "" then {d.link} else {})
  {
  }

  /** `seen_news` only grows: after the pass it holds exactly what it held
      before plus every non-empty stripped link of the feed. */
  lemma {:induction false} PassSeen(seen: set<string>, items: seq<Dispatch>)
    ensures Pass(seen, items).seen == seen + Links(items)
    decreases |items|
  {
    if items != [] {
      var n := |items| - 1;
      StepFacts(seen, items[n]);
      PassSeen(NewsStep(seen, items[n]).seen, items[..n]);
    }
  }

  /** Every entry sent has a non-empty link that was not seen before the
      pass, and that link is seen after it. */
  lemma {:induction false} PassFresh(seen: set<string>, items: seq<Dispatch>)
    ensures forall k :: 0 <= k < |Pass(seen, items).dispatched| ==>
              Pass(seen, items).dispatched[k].link != "" &&
              Pass(seen, items).dispatched[k].link !in seen &&
              Pass(seen, items).dispatched[k].link in Pass(seen, items).seen
    decreases |items|
  {
    if items != [] {
      var n := |items| - 1;
      var first := NewsStep(seen, items[n]);
      StepFacts(seen, items[n]);
      PassFresh(first.seen, items[..n]);
      PassSeen(first.seen, items[..n]);
      var rest := Pass(first.seen, items[..n]);
      var ds := first.dispatched + rest.dispatched;
      forall k | 0 <= k < |ds|
        ensures ds[k].link != "" && ds[k].link !in seen && ds[k].link in rest.seen
      {
        if k >= |first.dispatched| {
          assert ds[k] == rest.dispatched[k - |first.dispatched|];
        }
      }
    }
  }

  /** No link is sent twice in one pass. */
  lemma {:induction false} PassDistinct(seen: set<string>, items: seq<Dispatch>)
    ensures DistinctLinks(Pass(seen, items).dispatched)
    decreases |items|
  {
    if items != [] {
      var n := |items| - 1;
      var first := NewsStep(seen, items[n]);
      StepFacts(seen, items[n]);
      PassDistinct(first.seen, items[..n]);
      PassFresh(first.seen, items[..n]);
      var rest := Pass(first.seen, items[..n]);
      var ds := first.dispatched + rest.dispatched;
      if first.dispatched == [] {
        assert ds == rest.dispatched;
      } else {
        forall i, j | 0 <= i < j < |ds|
          ensures ds[i].link != ds[j].link
        {
          assert ds[j] == rest.dispatched[j - 1];
          assert 0 <= j - 1 < |rest.dispatched|;
          assert rest.dispatched[j - 1].link !in first.seen;
          if i > 0 {
            assert ds[i] == rest.dispatched[i - 1];
          } else {
            assert ds[0] == first.dispatched[0];
          }
        }
      }
    }
  }

  /** The links sent are exactly the links the pass added to `seen_news`. */
  lemma {:induction false} PassSentLinks(seen: set<string>, items: seq<Dispatch>)
    ensures SentLinks(Pass(seen, items).dispatched) == Pass(seen, items).seen - seen
    decreases |items|
  {
    if items != [] {
      var n := |items| - 1;
      var first := NewsStep(seen, items[n]);
      StepFacts(seen, items[n]);
      PassSentLinks(first.seen, items[..n]);
      PassSeen(first.seen, items[..n]);
      var rest := Pass(first.seen, items[..n]);
      var ds := first.dispatched + rest.dispatched;
      assert SentLinks(ds) == SentLinks(first.dispatched) + SentLinks(rest.dispatched) by {
        forall x | x in SentLinks(ds)
          ensures x in SentLinks(first.dispatched) + SentLinks(rest.dispatched)
        {
          var k :| 0 <= k < |ds| && x == ds[k].link;
          if k >= |first.dispatched| {
            assert ds[k] == rest.dispatched[k - |first.dispatched|];
          }
        }
        forall x | x in SentLinks(rest.dispatched)
          ensures x in SentLinks(ds)
        {
          var k :| 0 <= k < |rest.dispatched| && x == rest.dispatched[k].link;
          assert ds[k + |first.dispatched|] == rest.dispatched[k];
        }
        forall x | x in SentLinks(first.dispatched)
          ensures x in SentLinks(ds)
        {
          var k :| 0 <= k < |first.dispatched| && x == first.dispatched[k].link;
          assert ds[k] == first.dispatched[k];
        }
      }
      if first.dispatched != [] {
        assert SentLinks(first.dispatched) == {first.dispatched[0].link};
      }
    }
  }

  /** A feed whose every link is empty or already seen sends nothing. */
  lemma {:induction false} AllSeenIsSilent(seen: set<string>, items: seq<Dispatch>)
    requires Links(items) <= seen
    ensures Pass(seen, items) == NewsResult(seen, [])
    decreases |items|
  {
    if items != [] {
      StepFacts(seen, items[|items| - 1]);
      AllSeenIsSilent(seen, items[..|items| - 1]);
    }
  }

  /** Polling the same feed a second time sends nothing. */
  lemma RepollIsSilent(seen: set<string>, items: seq<Dispatch>)
    ensures var again := Pass(Pass(seen, items).seen, items);
            again.dispatched == [] && again.seen == Pass(seen, items).seen
  {
    PassSeen(seen, items);
    AllSeenIsSilent(Pass(seen, items).seen, items);
  }

  /** Entries are handled newest-last-first: for a feed `a + b`, the items
      of `b` are handled before those of `a`, which see `b`'s links. */
  lemma {:induction false} PassAppend(seen: set<string>, a: seq<Dispatch>, b: seq<Dispatch>)
    ensures var rb := Pass(seen, b);
            var ra := Pass(rb.seen, a);
            Pass(seen, a + b) == NewsResult(ra.seen, rb.dispatched + ra.dispatched)
    decreases |b|
  {
    if b == [] {
      assert a + b == a;
      assert Pass(seen, b) == NewsResult(seen, []);
    } else {
      var n := |b| - 1;
      var first := NewsStep(seen, b[n]);
      PassAppend(first.seen, a, b[..n]);
      PassAppendLast(seen, a, b);
    }
  }

  /** The last item of `a + b` is that of `b`, and what precedes it is
      `a + b[..|b| - 1]`: one unfolding of `Pass` on each side. */
  lemma PassAppendLast(seen: set<string>, a: seq<Dispatch>, b: seq<Dispatch>)
    requires b != []
    requires var first := NewsStep(seen, b[|b| - 1]);
             var rb := Pass(first.seen, b[..|b| - 1]);
             Pass(first.seen, a + b[..|b| - 1]) ==
               NewsResult(Pass(rb.seen, a).seen, rb.dispatched + Pass(rb.seen, a).dispatched)
    ensures var rb := Pass(seen, b);
            var ra := Pass(rb.seen, a);
            Pass(seen, a + b) == NewsResult(ra.seen, rb.dispatched + ra.dispatched)
  {
    var n := |b| - 1;
    assert (a + b)[..|a + b| - 1] == a + b[..n];
    assert (a + b)[|a + b| - 1] == b[n];
    var first := NewsStep(seen, b[n]);
    var rb := Pass(first.seen, b[..n]);
    var ra := Pass(rb.seen, a);
    var whole := Pass(first.seen, a + b[..n]);
    assert Pass(seen, a + b) == NewsResult(whole.seen, first.dispatched + whole.dispatched);
    assert Pass(seen, b) == NewsResult(rb.seen, first.dispatched + rb.dispatched);
    assert first.dispatched + (rb.dispatched + ra.dispatched) ==
           (first.dispatched + rb.dispatched) + ra.dispatched;
  }

  /** The number of items sent is the number of new links in the feed. */
  lemma NewsCount(seen: set<string>, items: seq<Dispatch>)
    ensures |Pass(seen, items).dispatched| == |Links(items) - seen|
  {
    var r := Pass(seen, items);
    PassDistinct(seen, items);
    PassSentLinks(seen, items);
    PassSeen(seen, items);
    assert r.seen - seen == Links(items) - seen;
    DistinctCount(r.dispatched);
  }

  /** Distinct links: as many links as entries. */
  lemma {:induction false} DistinctCount(ds: seq<Dispatch>)
    requires DistinctLinks(ds)
    ensures |SentLinks(ds)| == |ds|
    decreases |ds|
  {
    if ds != [] {
      var n := |ds| - 1;
      var init := ds[..n];
      assert DistinctLinks(init) by {
        forall i, j | 0 <= i < j < |init|
          ensures init[i].link != init[j].link
        {
          assert init[i] == ds[i] && init[j] == ds[j];
        }
      }
      DistinctCount(init);
      assert SentLinks(ds) == SentLinks(init) + {ds[n].link} by {
        forall x | x in SentLinks(ds)
          ensures x in SentLinks(init) + {ds[n].link}
        {
          var k :| 0 <= k < |ds| && x == ds[k].link;
          if k < n {
            assert init[k] == ds[k];
          }
        }
        forall x | x in SentLinks(init)
          ensures x in SentLinks(ds)
        {
          var k :| 0 <= k < |init| && x == init[k].link;
          assert init[k] == ds[k];
        }
      }
      assert ds[n].link !in SentLinks(init);
    }
  }

  /** The combined message, when it fits, leaves the radio as one fragment
      holding its whitespace-normalised text. */
  lemma FullMessageOneFragment(d: Dispatch)
    requires |NewsMessages(d)| == 1
    ensures Chunks(NewsMessages(d)[0], MaxChunkLen) == [Normalize(NewsMessages(d)[0])]
  {
    NewsMessagesShape(d);
    var full := NewsMessages(d)[0];
    var rest := d.title + " | " + d.link;
    assert full == NewsGlyph + " " + rest;
    WordsAcrossSpace(NewsGlyph, rest);
    assert IsWord(NewsGlyph);
    WordsOfWord(NewsGlyph);
    assert Words(full)[0] == NewsGlyph;
    NormalizeNeverLonger(full);
    ChunksFit(full, MaxChunkLen);
  }

  /** A link of `MAX_CHUNK_LEN` bytes or more, sent on its own, is preceded
      by an empty fragment: the chunker's first test counts a space before
      the first word. */
  lemma LongLinkEmptyFragment(link: string)
    requires IsWord(link) && Utf8Len(link) >= MaxChunkLen
    ensures Chunks(link, MaxChunkLen) == ["", link]
  {
    WordsOfWord(link);
    SpacedLen("", link);
    assert Pack([link][1..], link, MaxChunkLen) == [link];
  }
}
