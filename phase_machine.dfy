/** One poll of the alert loop as a pure step on the pair of globals
    `current_phase` / `aircraft_id_last`: the body it read, what `json.loads`
    made of it and the timestamp are inputs; the new pair, the messages it
    handed to `send_text` and how the iteration ended are the result. */
module PhaseMachine {
  import opened Text
  import opened Json
  import opened Feed
  import opened Phases
  import opened Packet

  /** `current_phase` and `aircraft_id_last`; Python `None` for the id is
      JSON null, which is also what `first.get("id")` gives for a missing
      key. */
  datatype AlertState = AlertState(phase: Phase, lastId: Json)

  /** The globals at start-up. */
  const Initial: AlertState := AlertState(None, JNull)

  /** How one iteration of the loop ended: idle or HTML body, no alerts, an
      exception caught by the loop's `except`, or the alert was handled. */
  datatype Outcome = Idle | NoAlerts | Aborted | Processed

  datatype PollResult = PollResult(state: AlertState, messages: seq<string>, outcome: Outcome)

  /** The default title of an aircraft-intrusion update: "hostile aircraft
      intrusion". */
  const AircraftTitle: string := "חדירת כלי טיס עוין"

  /** `first.get("title", fallback)` as the f-string renders it. */
  function TitleOr(fields: map<string, Json>, fallback: string): string {
    Display(if "title" in fields then fields["title"] else JString(fallback))
  }

  /** `first.get("id")`. */
  function IdOf(fields: map<string, Json>): Json {
    if "id" in fields then fields["id"] else JNull
  }

  /** `Phase(cat_val) if cat_val in (1, 2, 6, 13, 14) else current_phase`:
      an accepted category names its phase (category 2 raises), any other
      keeps the current phase. */
  function NextPhase(current: Phase, cat: int): (r: Fallible<Phase>)
    ensures r.Raises? <==> cat == 2
    ensures cat !in Accepted ==> r == Ok(current)
    ensures cat in Accepted && r.Ok? ==> Code(r.value) == cat && r.value != None
  {
    if cat in Accepted then PhaseOf(cat) else Ok(current)
  }

  /** The invariant of the two globals: an aircraft id is remembered only in
      the AIRCRAFT phase. */
  predicate Consistent(s: AlertState) {
    s.lastId != JNull ==> s.phase == Aircraft
  }

  /** One iteration of the alert loop. */
  function Poll(s: AlertState, raw: string, parsed: Parsed, ts: string): (r: PollResult)
    ensures |r.messages| <= 1
    ensures r.outcome != Processed ==> r.messages == []
    ensures r.outcome != Processed && r.outcome != Aborted ==> r.state == s
  {
    if IsIdle(raw) then PollResult(s, [], Idle)
    else
      var alerts := ParseAlerts(parsed);
      if alerts == [] then PollResult(s, [], NoAlerts)
      else
        var first := alerts[0];
        match CategoryOf(first)
        case Raises => PollResult(s, [], Aborted)
        case Ok(cat) =>
          match NextPhase(s.phase, cat)
          case Raises => PollResult(s, [], Aborted)
          case Ok(np) =>
            if np != s.phase then
              match Locations(alerts, [cat])
              case Raises => PollResult(AlertState(s.phase, JNull), [], Aborted)
              case Ok(locs) =>
                var title := TitleOr(first.fields, Emoji(np));
                var id := if np == Aircraft then IdOf(first.fields) else JNull;
                PollResult(AlertState(np, id), [FormatPacket(np, title, locs, ts)], Processed)
            else if s.phase == Aircraft then
              var cur := IdOf(first.fields);
              if Truthy(cur) && cur != s.lastId then
                match Locations(alerts, [2, 6])
                case Raises => PollResult(s, [], Aborted)
                case Ok(locs) =>
                  var title := TitleOr(first.fields, AircraftTitle);
                  PollResult(AlertState(Aircraft, cur), [FormatPacket(Aircraft, title, locs, ts)], Processed)
              else PollResult(s, [], Processed)
            else PollResult(s, [], Processed)
  }

  // ------------------------------------------------------------ no-op polls

  /** A poll sends nothing and changes nothing when the body is idle or
      HTML, when there are no alerts, when the first alert's category cannot
      be read, or when that category is 2, for which `Phase(2)` raises. */
  lemma QuietPolls(s: AlertState, raw: string, parsed: Parsed, ts: string)
    requires IsIdle(raw) || ParseAlerts(parsed) == [] ||
             CategoryOf(ParseAlerts(parsed)[0]).Raises? ||
             CategoryOf(ParseAlerts(parsed)[0]) == Ok(2)
    ensures Poll(s, raw, parsed, ts).state == s
    ensures Poll(s, raw, parsed, ts).messages == []
  {
    AcceptedCategories(2);
  }

  /** A category outside (1, 2, 6, 13, 14) keeps the phase; outside AIRCRAFT
      such a poll sends nothing and changes nothing. */
  lemma UnknownCategory(s: AlertState, raw: string, parsed: Parsed, ts: string)
    requires !IsIdle(raw) && ParseAlerts(parsed) != []
    requires CategoryOf(ParseAlerts(parsed)[0]).Ok?
    requires CategoryOf(ParseAlerts(parsed)[0]).value !in Accepted
    ensures Poll(s, raw, parsed, ts).state.phase == s.phase
    ensures s.phase != Aircraft ==>
      Poll(s, raw, parsed, ts).state == s && Poll(s, raw, parsed, ts).messages == []
  {
  }

  // ------------------------------------------------------------ invariants

  /** Every poll keeps the globals consistent. */
  lemma PollConsistent(s: AlertState, raw: string, parsed: Parsed, ts: string)
    requires Consistent(s)
    ensures Consistent(Poll(s, raw, parsed, ts).state)
  {
  }

  /** Once the phase has left NONE it never returns to it. */
  lemma NeverBackToNone(s: AlertState, raw: string, parsed: Parsed, ts: string)
    requires s.phase != None
    ensures Poll(s, raw, parsed, ts).state.phase != None
  {
    var alerts := ParseAlerts(parsed);
    if !IsIdle(raw) && alerts != [] && CategoryOf(alerts[0]).Ok? {
      var cat := CategoryOf(alerts[0]).value;
      if cat in Accepted {
        AcceptedCategories(cat);
      }
    }
  }

  /** The phase only ever becomes one of the four alerting phases. */
  lemma NewPhaseIsAlerting(s: AlertState, raw: string, parsed: Parsed, ts: string)
    ensures var r := Poll(s, raw, parsed, ts);
            r.state.phase == s.phase || r.state.phase in {Pre, Rocket, Aircraft, Clear}
  {
  }

  // ------------------------------------------------------------ phase change

  /** A phase change sends exactly one packet, whose first word is the new
      phase's glyph, followed by the area label and the locations filtered to
      the new category; entering AIRCRAFT records the first alert's id, any
      other phase forgets it. */
  lemma PhaseChange(s: AlertState, raw: string, parsed: Parsed, ts: string)
    requires Poll(s, raw, parsed, ts).state.phase != s.phase
    ensures var r := Poll(s, raw, parsed, ts);
            var alerts := ParseAlerts(parsed);
            r.outcome == Processed && |r.messages| == 1 && alerts != [] &&
            alerts[0].JObject? && CategoryOf(alerts[0]) == Ok(Code(r.state.phase)) &&
            Locations(alerts, [Code(r.state.phase)]).Ok? &&
            Words(r.messages[0]) ==
              [Emoji(r.state.phase), "איזור:"] + Words(Locations(alerts, [Code(r.state.phase)]).value) +
              ["|", "סוג", "ההתרעה:"] +
              Words(TitleOr(alerts[0].fields, Emoji(r.state.phase))) +
              ["|", "חותמת", "זמן:"] + Words(ts) &&
            r.state.lastId == (if r.state.phase == Aircraft then IdOf(alerts[0].fields) else JNull)
  {
    var r := Poll(s, raw, parsed, ts);
    var alerts := ParseAlerts(parsed);
    var cat := CategoryOf(alerts[0]).value;
    AcceptedCategories(cat);
    PacketWords(r.state.phase, TitleOr(alerts[0].fields, Emoji(r.state.phase)),
                Locations(alerts, [cat]).value, ts);
  }

  /** An accepted category other than 2 that names a phase other than the
      current one, with locations that can be collected, commits that phase
      and sends one packet: category 1 enters ROCKET, 13 CLEAR, 14 PRE and 6
      AIRCRAFT. */
  lemma PhaseEntered(s: AlertState, raw: string, parsed: Parsed, ts: string, c: int)
    requires !IsIdle(raw) && ParseAlerts(parsed) != []
    requires CategoryOf(ParseAlerts(parsed)[0]) == Ok(c)
    requires c in Accepted && c != 2
    requires PhaseOf(c).value != s.phase
    requires Locations(ParseAlerts(parsed), [c]).Ok?
    ensures Poll(s, raw, parsed, ts).state.phase == PhaseOf(c).value
    ensures Poll(s, raw, parsed, ts).outcome == Processed
    ensures |Poll(s, raw, parsed, ts).messages| == 1
  {
    AcceptedCategories(c);
  }

  /** When the locations of a phase change cannot be collected, the poll
      aborts after forgetting the aircraft id and before committing the new
      phase. */
  lemma PhaseChangeAborted(s: AlertState, raw: string, parsed: Parsed, ts: string)
    requires !IsIdle(raw) && ParseAlerts(parsed) != []
    requires CategoryOf(ParseAlerts(parsed)[0]).Ok?
    requires var cat := CategoryOf(ParseAlerts(parsed)[0]).value;
             NextPhase(s.phase, cat).Ok? && NextPhase(s.phase, cat).value != s.phase &&
             Locations(ParseAlerts(parsed), [cat]).Raises?
    ensures Poll(s, raw, parsed, ts) == PollResult(AlertState(s.phase, JNull), [], Aborted)
  {
  }

  // ------------------------------------------------------------ aircraft ids

  /** In AIRCRAFT, an alert that does not change the phase sends a packet
      exactly when its id is truthy and differs from the remembered one (and
      its locations can be collected); the id is then remembered. */
  lemma AircraftUpdate(s: AlertState, raw: string, parsed: Parsed, ts: string)
    requires s.phase == Aircraft && !IsIdle(raw) && ParseAlerts(parsed) != []
    requires CategoryOf(ParseAlerts(parsed)[0]).Ok?
    requires var cat := CategoryOf(ParseAlerts(parsed)[0]).value;
             cat !in Accepted || cat == 6
    ensures var r := Poll(s, raw, parsed, ts);
            var alerts := ParseAlerts(parsed);
            var cur := IdOf(alerts[0].fields);
            (r.messages != [] <==>
               Truthy(cur) && cur != s.lastId && Locations(alerts, [2, 6]).Ok?) &&
            (r.messages != [] ==>
               r.state == AlertState(Aircraft, cur) &&
               r.messages == [FormatPacket(Aircraft, TitleOr(alerts[0].fields, AircraftTitle),
                                           Locations(alerts, [2, 6]).value, ts)]) &&
            (r.messages == [] ==> r.state == s)
  {
  }

  /** Polling the same feed again sends nothing and changes nothing: a phase
      change is not repeated, and an aircraft id is announced once. */
  lemma RepeatIsSilent(s: AlertState, raw: string, parsed: Parsed, ts: string, ts2: string)
    ensures var r1 := Poll(s, raw, parsed, ts);
            var r2 := Poll(r1.state, raw, parsed, ts2);
            r2.state == r1.state && r2.messages == []
  {
  }

  /** Entering AIRCRAFT announces the alert even when its id is the one
      remembered from an earlier AIRCRAFT phase, since every phase change
      sends. */
  lemma ReentryAnnounces(s: AlertState, raw: string, parsed: Parsed, ts: string)
    requires s.phase != Aircraft && !IsIdle(raw) && ParseAlerts(parsed) != []
    requires CategoryOf(ParseAlerts(parsed)[0]) == Ok(6)
    requires Locations(ParseAlerts(parsed), [6]).Ok?
    ensures var r := Poll(s, raw, parsed, ts);
            r.state == AlertState(Aircraft, IdOf(ParseAlerts(parsed)[0].fields)) &&
            |r.messages| == 1
  {
  }

  /** A run of polls, each with its body, decoded body and timestamp. */
  datatype Input = Input(raw: string, parsed: Parsed, ts: string)

  /** The globals and the messages after polling `inputs` in order. */
  function Run(s: AlertState, inputs: seq<Input>): (r: (AlertState, seq<string>))
    decreases |inputs|
  {
    if inputs == [] then (s, [])
    else
      var p := Poll(s, inputs[0].raw, inputs[0].parsed, inputs[0].ts);
      var rest := Run(p.state, inputs[1..]);
      (rest.0, p.messages + rest.1)
  }

  /** From start-up, the globals stay consistent over any run of polls. */
  lemma {:induction false} RunConsistent(s: AlertState, inputs: seq<Input>)
    requires Consistent(s)
    ensures Consistent(Run(s, inputs).0)
    decreases |inputs|
  {
    if inputs != [] {
      PollConsistent(s, inputs[0].raw, inputs[0].parsed, inputs[0].ts);
      RunConsistent(Poll(s, inputs[0].raw, inputs[0].parsed, inputs[0].ts).state, inputs[1..]);
    }
  }

  /** A readable body whose first alert is of category 6 and whose
      aircraft locations can be collected. */
  predicate AircraftAlert(x: Input) {
    !IsIdle(x.raw) && ParseAlerts(x.parsed) != [] &&
    CategoryOf(ParseAlerts(x.parsed)[0]) == Ok(6) &&
    Locations(ParseAlerts(x.parsed), [2, 6]).Ok?
  }

  /** The id of such an alert. */
  function AlertId(x: Input): Json
    requires AircraftAlert(x)
  {
    IdOf(ParseAlerts(x.parsed)[0].fields)
  }

  /** In AIRCRAFT, two updates in a row whose truthy ids differ from the id
      remembered before each of them send one packet each. */
  lemma DistinctIdsAnnounced(s: AlertState, a: Input, b: Input)
    requires s.phase == Aircraft
    requires AircraftAlert(a) && AircraftAlert(b)
    requires Truthy(AlertId(a)) && Truthy(AlertId(b))
    requires AlertId(a) != s.lastId && AlertId(b) != AlertId(a)
    ensures |Run(s, [a, b]).1| == 2
  {
    var p := Poll(s, a.raw, a.parsed, a.ts);
    assert [a, b][1..] == [b];
    assert [b][1..] == [];
    assert p.state == AlertState(Aircraft, AlertId(a)) && |p.messages| == 1;
    var q := Poll(p.state, b.raw, b.parsed, b.ts);
    assert |q.messages| == 1;
    assert Run(p.state, [b]).1 == q.messages + Run(q.state, []).1;
    assert Run(s, [a, b]).1 == p.messages + Run(p.state, [b]).1;
  }
}
