/** The alerts-only bridge: one channel, the globals `current_phase` and
    `aircraft_id_last`, and one iteration of its polling loop. Its helpers
    (`split_chunks`, `parse_alerts`, `flattened_locs`, `format_packet`,
    `make_test`) behave as the two-channel bridge's do, so the same
    definitions model them. */
module AlertsOnly {
  import opened Json
  import opened Chunker
  import opened Transport
  import opened Feed
  import opened Phases
  import opened Packet
  import opened PhaseMachine

  class Monitor {
    /** The slot of the alerts channel, found once at start-up. */
    const channel: int

    var phase: Phase
    var lastAircraftId: Json
    /** Every fragment handed to the radio so far, in order. */
    var sent: seq<Frame>

    function State(): AlertState
      reads this
    {
      AlertState(phase, lastAircraftId)
    }

    ghost predicate Valid()
      reads this
    {
      Consistent(State())
    }

    /** The globals at start-up, on the channel slot. */
    constructor(slot: int)
      ensures channel == slot
      ensures State() == Initial && sent == []
      ensures Valid()
    {
      channel := slot;
      phase := None;
      lastAircraftId := JNull;
      sent := [];
    }

    /** `send_text(iface, ch_idx, message)`: one `sendText` per fragment. */
    method SendText(message: string)
      modifies this
      ensures sent == old(sent) + Frames(channel, message)
      ensures State() == old(State())
    {
      var parts := SplitChunks(message, MaxChunkLen);
      for i := 0 to |parts|
        invariant sent == old(sent) + Tagged(channel, parts[..i])
        invariant State() == old(State())
      {
        assert parts[..i + 1][..i] == parts[..i];
        sent := sent + [(channel, parts[i])];
      }
      assert parts[..|parts|] == parts;
    }

    /** The `--test` / `--test-only` start-up message. */
    method SendTest(areas: string, ts: string)
      modifies this
      ensures sent == old(sent) + Frames(channel, MakeTest(areas, ts))
      ensures State() == old(State())
    {
      SendText(MakeTest(areas, ts));
    }

    /** One iteration of the `while True` loop on the stripped body `raw`,
        what `json.loads(raw)` made of it and the timestamp `now_il()` gave.
        An exception leaves the loop's `except` with whatever was already
        changed. */
    method PollAlerts(raw: string, parsed: Parsed, ts: string) returns (outcome: Outcome)
      modifies this
      ensures State() == Poll(old(State()), raw, parsed, ts).state
      ensures sent == old(sent) + Transmit(channel, Poll(old(State()), raw, parsed, ts).messages)
      ensures outcome == Poll(old(State()), raw, parsed, ts).outcome
      ensures old(Valid()) ==> Valid()
      ensures old(phase) != None ==> phase != None
    {
      ghost var s := State();
      if Consistent(s) {
        PollConsistent(s, raw, parsed, ts);
      }
      if s.phase != None {
        NeverBackToNone(s, raw, parsed, ts);
      }
      assert Transmit(channel, []) == [];
      if raw in IdlePatterns || LooksLikeHtml(raw) {
        return Idle;
      }
      var alerts := ParseAlerts(parsed);
      if alerts == [] {
        return NoAlerts;
      }
      var first := alerts[0];
      var category := CategoryOf(first);
      if category.Raises? {
        return Aborted;
      }
      var cat := category.value;
      var newPhase: Phase;
      if cat in Accepted {
        var named := PhaseOf(cat);
        if named.Raises? {
          return Aborted;
        }
        newPhase := named.value;
      } else {
        newPhase := phase;
      }

      if newPhase != phase {
        lastAircraftId := JNull;
        var locs := FlattenedLocs(alerts, [cat]);
        if locs.Raises? {
          return Aborted;
        }
        var title := TitleOr(first.fields, Emoji(newPhase));
        var packet := FormatPacket(newPhase, title, locs.value, ts);
        SendText(packet);
        TransmitOne(channel, packet);
        phase := newPhase;
        if newPhase == Aircraft {
          lastAircraftId := IdOf(first.fields);
        }
      } else if phase == Aircraft {
        var curId := IdOf(first.fields);
        if Truthy(curId) && curId != lastAircraftId {
          var locs := FlattenedLocs(alerts, [2, 6]);
          if locs.Raises? {
            return Aborted;
          }
          var title := TitleOr(first.fields, AircraftTitle);
          var packet := FormatPacket(Aircraft, title, locs.value, ts);
          SendText(packet);
          TransmitOne(channel, packet);
          lastAircraftId := curId;
        }
      }
      return Processed;
    }
  }
}
