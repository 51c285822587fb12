/** The alerts-and-news bridge: the globals `current_phase`,
    `aircraft_id_last` and `seen_news`, the radio seen as the log of fragments
    sent, and one iteration each of the alert loop and of the news loop. */
module MeshBridge {
  import opened Text
  import opened Json
  import opened Chunker
  import opened Transport
  import opened Feed
  import opened Phases
  import opened Packet
  import opened PhaseMachine
  import opened News

  class Bridge {
    /** The slot of the alerts channel, found once at start-up. */
    const alertsChannel: int
    /** The slot of the news channel, found once at start-up. */
    const newsChannel: int

    var phase: Phase
    var lastAircraftId: Json
    var seenNews: set<string>
    /** Every fragment handed to the radio so far, in order. */
    var sent: seq<Frame>

    function State(): AlertState
      reads this
    {
      AlertState(phase, lastAircraftId)
    }

    ghost predicate Valid()
      reads this
    {
      Consistent(State())
    }

    /** The globals at start-up, on the two channel slots. */
    constructor(alerts: int, news: int)
      ensures alertsChannel == alerts && newsChannel == news
      ensures State() == Initial && seenNews == {} && sent == []
      ensures Valid()
    {
      alertsChannel := alerts;
      newsChannel := news;
      phase := None;
      lastAircraftId := JNull;
      seenNews := {};
      sent := [];
    }

    /** `send_text(iface, ch, message)`: one radio send per fragment. */
    method SendText(ch: int, message: string)
      modifies this
      ensures sent == old(sent) + Frames(ch, message)
      ensures phase == old(phase) && lastAircraftId == old(lastAircraftId)
      ensures seenNews == old(seenNews)
    {
      var parts := SplitChunks(message, MaxChunkLen);
      for i := 0 to |parts|
        invariant sent == old(sent) + Tagged(ch, parts[..i])
        invariant phase == old(phase) && lastAircraftId == old(lastAircraftId)
        invariant seenNews == old(seenNews)
      {
        assert parts[..i + 1][..i] == parts[..i];
        sent := sent + [(ch, parts[i])];
      }
      assert parts[..|parts|] == parts;
    }

    /** `send_text(iface, ch_alerts, make_test(areas))`, the `--test` start-up
        message. */
    method SendTest(areas: string, ts: string)
      modifies this
      ensures sent == old(sent) + Frames(alertsChannel, MakeTest(areas, ts))
      ensures phase == old(phase) && lastAircraftId == old(lastAircraftId)
      ensures seenNews == old(seenNews)
    {
      SendText(alertsChannel, MakeTest(areas, ts));
    }

    /** One iteration of `alert_loop` on the stripped body `raw`, what
        `json.loads(raw)` made of it and the timestamp `now_il()` gave. An
        exception leaves the loop's `except` with whatever was already
        changed. */
    method PollAlerts(raw: string, parsed: Parsed, ts: string) returns (outcome: Outcome)
      modifies this
      ensures State() == Poll(old(State()), raw, parsed, ts).state
      ensures sent == old(sent) + Transmit(alertsChannel, Poll(old(State()), raw, parsed, ts).messages)
      ensures outcome == Poll(old(State()), raw, parsed, ts).outcome
      ensures seenNews == old(seenNews)
      ensures old(Valid()) ==> Valid()
      ensures old(phase) != None ==> phase != None
    {
      ghost var s := State();
      if Consistent(s) {
        PollConsistent(s, raw, parsed, ts);
      }
      if s.phase != None {
        NeverBackToNone(s, raw, parsed, ts);
      }
      assert Transmit(alertsChannel, []) == [];
      if raw in IdlePatterns || LooksLikeHtml(raw) {
        return Idle;
      }
      var alerts := ParseAlerts(parsed);
      if alerts == [] {
        return NoAlerts;
      }
      var first := alerts[0];
      var category := CategoryOf(first);
      if category.Raises? {
        return Aborted;
      }
      var cat := category.value;
      var newPhase: Phase;
      if cat in Accepted {
        var named := PhaseOf(cat);
        if named.Raises? {
          return Aborted;
        }
        newPhase := named.value;
      } else {
        newPhase := phase;
      }

      if newPhase != phase {
        lastAircraftId := JNull;
        var locs := FlattenedLocs(alerts, [cat]);
        if locs.Raises? {
          return Aborted;
        }
        var title := TitleOr(first.fields, Emoji(newPhase));
        var packet := FormatPacket(newPhase, title, locs.value, ts);
        SendText(alertsChannel, packet);
        TransmitOne(alertsChannel, packet);
        phase := newPhase;
        if newPhase == Aircraft {
          lastAircraftId := IdOf(first.fields);
        }
      } else if phase == Aircraft {
        var curId := IdOf(first.fields);
        if Truthy(curId) && curId != lastAircraftId {
          var locs := FlattenedLocs(alerts, [2, 6]);
          if locs.Raises? {
            return Aborted;
          }
          var title := TitleOr(first.fields, AircraftTitle);
          var packet := FormatPacket(Aircraft, title, locs.value, ts);
          SendText(alertsChannel, packet);
          TransmitOne(alertsChannel, packet);
          lastAircraftId := curId;
        }
      }
      return Processed;
    }

    /** Sending one new entry: the combined message when it fits in
        `MAX_CHUNK_LEN` bytes, else the title message and then the link. */
    method Announce(link: string, title: string)
      modifies this
      ensures sent == old(sent) + Transmit(newsChannel, NewsMessages(Dispatch(link, title)))
      ensures phase == old(phase) && lastAircraftId == old(lastAircraftId)
      ensures seenNews == old(seenNews)
    {
      var msg := NewsGlyph + " " + title;
      var full := msg + " | " + link;
      NewsFrames(newsChannel, link, title);
      if Utf8Len(full) <= MaxChunkLen {
        SendText(newsChannel, full);
      } else {
        SendText(newsChannel, msg);
        SendText(newsChannel, link);
      }
    }

    /** The body of `for entry in reversed(feed.entries)`: skip an entry
        whose stripped link is empty or seen, else announce it and remember
        its link. */
    method Visit(entry: Entry)
      modifies this
      ensures seenNews == NewsStep(old(seenNews), Candidate(entry)).seen
      ensures sent == old(sent) +
                      Transmit(newsChannel, Messages(NewsStep(old(seenNews), Candidate(entry)).dispatched))
      ensures phase == old(phase) && lastAircraftId == old(lastAircraftId)
    {
      var link := Strip(entry.link);
      if link == "" || link in seenNews {
        assert Transmit(newsChannel, Messages([])) == [];
        return;
      }
      var title := Strip(entry.title);
      Announce(link, title);
      MessagesOne(Dispatch(link, title));
      seenNews := seenNews + {link};
    }

    /** Entry `i - 1` of the walk from the end: with `done` sent so far and
        the first `i` entries left to reach `goal`, visiting it leaves the
        first `i - 1` to reach `goal`, with `done2` sent. */
    method VisitFromEnd(entries: seq<Entry>, i: nat, ghost items: seq<Dispatch>,
                        ghost done: seq<Dispatch>, ghost goal: NewsResult, ghost start: seq<Frame>)
      returns (ghost done2: seq<Dispatch>)
      requires 0 < i <= |entries| && items == Candidates(entries)
      requires goal.seen == Pass(seenNews, items[..i]).seen
      requires goal.dispatched == done + Pass(seenNews, items[..i]).dispatched
      requires sent == start + Transmit(newsChannel, Messages(done))
      modifies this
      ensures goal.seen == Pass(seenNews, items[..i - 1]).seen
      ensures goal.dispatched == done2 + Pass(seenNews, items[..i - 1]).dispatched
      ensures sent == start + Transmit(newsChannel, Messages(done2))
      ensures phase == old(phase) && lastAircraftId == old(lastAircraftId)
    {
      PassBackStep(seenNews, items, i, done, goal);
      CandidateAt(entries, i - 1);
      ghost var step := NewsStep(seenNews, items[i - 1]);
      ghost var log := sent;
      Visit(entries[i - 1]);
      MessagesConcat(done, step.dispatched);
      LogAppend(newsChannel, start, log, sent, Messages(done), Messages(step.dispatched));
      done2 := done + step.dispatched;
    }

    /** One iteration of `news_loop` on the feed's entries: walked from the
        last, each new link is announced and then remembered. */
    method PollNews(entries: seq<Entry>)
      modifies this
      ensures seenNews == NewsPoll(old(seenNews), entries).seen
      ensures sent == old(sent) + Transmit(newsChannel, Messages(NewsPoll(old(seenNews), entries).dispatched))
      ensures phase == old(phase) && lastAircraftId == old(lastAircraftId)
    {
      ghost var items := Candidates(entries);
      ghost var goal := NewsPoll(seenNews, entries);
      ghost var done: seq<Dispatch> := [];
      PassStart(seenNews, entries);
      var i := |entries|;
      while i > 0
        invariant 0 <= i <= |entries|
        invariant goal.seen == Pass(seenNews, items[..i]).seen
        invariant goal.dispatched == done + Pass(seenNews, items[..i]).dispatched
        invariant sent == old(sent) + Transmit(newsChannel, Messages(done))
        invariant phase == old(phase) && lastAircraftId == old(lastAircraftId)
      {
        done := VisitFromEnd(entries, i, items, done, goal, old(sent));
        i := i - 1;
      }
      PassFinish(seenNews, items, done, goal);
    }
  }
}
