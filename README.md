# pikud-mesh bridge: a Dafny model

This project models the core of the pikud-mesh bridge. The bridge polls the
Home Front Command live-alert feed and relays alerts over a Meshtastic mesh
radio as short text fragments. The model covers two programs:

- `src/bridge.py` runs an alert loop and, on a second channel, a news loop
  that relays new items of an RSS feed.
- `src/bridge-alerts_only.py` runs only the alert loop, on one channel.

Both programs keep the same state: the current phase (NONE, PRE, ROCKET,
AIRCRAFT, CLEAR), the last announced aircraft-intrusion id, and (for the news
loop) the set of links already relayed. Every message goes through the same
chunker (`split_chunks`). The chunker packs the message's words into fragments
of at most `MAX_CHUNK_LEN` = 180 UTF-8 bytes and never breaks inside a word.
There are two exceptions. A single word longer than 180 bytes leaves as a
fragment of its own, over the limit. When the first word is 180 bytes or
more, the first fragment is empty.

Layout:

- `text.dfy` (`Text`): the Python string operations the code relies on. These
  are `str.split()`, `str.strip()`, `" ".join`, whitespace as `str.isspace`
  defines it, and the UTF-8 byte length of a string (section 3 of RFC 3629).
- `json.dfy` (`Json`): decoded JSON values, `dict.get`, Python truthiness,
  `int(...)` of a decoded value, `str(...)` of a value, and exceptions as
  `Fallible`.
- `chunker.dfy` (`Chunker`): `split_chunks` as a function (`Chunks`) and as the
  loop the generator runs (`SplitChunks`), with the chunker's properties.
- `transport.dfy` (`Transport`): the radio as an append-only log of
  (channel, fragment) pairs; what `send_text` puts on the air.
- `feed.dfy` (`Feed`): the idle/HTML sniff, `parse_alerts`, the category
  read, and `flattened_locs`, as a function and as its loop.
- `phases.dfy` (`Phases`), `packet.dfy` (`Packet`): the `Phase` enum,
  `PHASE_EMOJI`, `format_packet` and `make_test`.
- `phase_machine.dfy` (`PhaseMachine`): one alert-loop iteration as a pure step
  on the two globals (`Poll`), with the phase-machine properties.
- `news.dfy` (`News`): one news-loop pass as a pure function (`NewsPoll`),
  with its properties.
- `bridge.dfy` (`MeshBridge.Bridge`): the two-channel program as a class. Its
  fields are the globals and the radio log. Its methods are the loop bodies,
  each proved equal to the pure step.
- `alerts_only.dfy` (`AlertsOnly.Monitor`): the one-channel program the same
  way.

Two behaviours of the code are worth knowing:

- Category 2 is in the accepted tuple at `src/bridge.py:131`, but no `Phase`
  member has the value 2 (`src/bridge.py:33-38`). So `Phase(2)` raises
  `ValueError`, and the loop's `except` abandons the iteration
  (`Phases.AcceptedCategories`, `PhaseMachine.QuietPolls`).
- An unrecognised category keeps the current phase. In AIRCRAFT, the
  aircraft-id branch (`src/bridge.py:142-148`) still runs and can send an
  update (`PhaseMachine.UnknownCategory`, `PhaseMachine.AircraftUpdate`).

## Model

| member | source | states |
|---|---|---|
| Text.IsSpace | src/bridge.py:62-71 | definition (no contract of its own): Python's `str.isspace` set, which `split()` and `strip()` use (also at src/bridge.py:161): code points 9–13, 28–31, 32, 0x85, 0xA0, 0x1680, 0x2000–0x200A, 0x2028, 0x2029, 0x202F, 0x205F and 0x3000 |
| Text.Utf8Len | src/bridge.py:65 | `len(s.encode())`: at least one byte and at most four per character |
| Text.Utf8LenAppend | src/bridge.py:168 | the UTF-8 length of a concatenation is the sum of the lengths |
| Text.TrimStart | src/bridge.py:69 | `lstrip` leaves no leading whitespace and never lengthens |
| Text.TrimEnd | src/bridge.py:69 | `rstrip` leaves no trailing whitespace and never lengthens |
| Text.TrimStartDropsSpaces | src/bridge.py:161 | `lstrip` leaves a suffix of the input and removes only whitespace |
| Text.TrimEndDropsSpaces | src/bridge.py:161 | `rstrip` leaves a prefix of the input and removes only whitespace |
| Text.StripFixed | src/bridge.py:164 | `strip()` returns its input exactly when it neither starts nor ends with whitespace |
| Text.Strip | src/bridge.py:69 | definition (no contract of its own): `str.strip()`, `TrimEnd` of `TrimStart`; see `Text.StripFixed` and the two `Trim…DropsSpaces` lemmas |
| Text.WordsAreWords | src/bridge.py:64 | every item of `msg.split()` is a non-empty run of non-whitespace |
| Text.Words | src/bridge.py:64 | definition (no contract of its own): `str.split()` with no separator, a left-to-right scan that ends a word at each whitespace character; see `Text.WordsAreWords`, `Text.WordsOfJoin`, `Text.WordsAcrossSpace` |
| Text.WordsOfJoin | src/bridge.py:64 | splitting words joined by single spaces gives the words back |
| Text.JoinAppend | src/bridge.py:109 | joining two non-empty lists is joining each and putting the separator between |
| Text.Join | src/bridge.py:109 | definition (no contract of its own): `sep.join(items)`; see `Text.JoinAppend`, `Text.JoinEmptyIff`, `Text.JoinWordsShape` |
| Text.JoinWordsShape | src/bridge.py:69 | a space-joined word list is empty only for no words; it starts with the first word's first character and ends with the last word's last character |
| Text.JoinWordsLen | src/bridge.py:65 | appending a word to a non-empty word list adds one separator byte plus the word's bytes |
| Text.StripAppendWord | src/bridge.py:69 | `f"{buf} {word}".strip()` on a space-joined buffer is the buffer with the word appended |
| Text.WordsAcrossSpace | src/bridge.py:64 | `(a + " " + b).split() == a.split() + b.split()` |
| Text.WordsOfWord | src/bridge.py:64 | a single word splits into itself |
| Text.JoinEmptyIff | src/bridge.py:109 | `", ".join(out)` is empty exactly for no items or one empty item |
| Text.NormalizeNeverLonger | src/bridge.py:62-71 | re-joining the words of a text by single spaces never adds bytes |
| Json.Get | src/bridge.py:103-104 | `d.get(key, default)`: the value under the key, else the default; raises on a non-dict |
| Json.Truthy | src/bridge.py:144 | definition (no contract of its own): Python truthiness of a decoded value, as `if cur_id` tests it: None, False, 0, 0.0, the empty string, list and dict are false |
| Json.ToInt | src/bridge.py:130 | `int(x)` keeps an integer and raises for `None`, lists and dicts; a string is parsed after `IntStrip` |
| Json.IntSpace | src/bridge.py:130 | definition (no contract of its own): the whitespace `int()` skips around its digits, the `str.isspace` set without the separators U+001C–U+001F |
| Json.IntTrimStart | src/bridge.py:130 | dropping leading `int()` whitespace never lengthens the text and leaves none at the front |
| Json.IntTrimEnd | src/bridge.py:130 | dropping trailing `int()` whitespace never lengthens the text and leaves none at the end |
| Json.IntStrip | src/bridge.py:130 | definition (no contract of its own): the text `int()` parses, both ends trimmed of `int()` whitespace |
| Json.IntStripAgrees | src/bridge.py:130 | on text without U+001C–U+001F, `int()` strips exactly what `str.strip()` strips |
| Json.SeparatorRejected | src/bridge.py:130 | a string that starts or ends with one of U+001C–U+001F makes `int()` raise, whatever the rest is |
| Json.ParseInt | src/bridge.py:130 | definition (no contract of its own): `int()` of an already stripped string, an optional sign and one or more ASCII digits, else `ValueError`; see `Json.IntToStringRoundTrip` |
| Json.NatToStringRoundTrip | src/bridge.py:130 | the decimal spelling of a natural number reads back as that number |
| Json.IntToStringStripped | src/bridge.py:130 | a decimal spelling is unchanged by `str.strip()` and by the trimming `int()` does |
| Json.IntToStringParses | src/bridge.py:130 | the decimal spelling of any integer, sign included, parses back to that integer |
| Json.IntToStringRoundTrip | src/bridge.py:130 | `int(str(i)) == i` for every integer, the round trip behind categories sent as text |
| Json.Display | src/bridge.py:112-113 | definition (no contract of its own): how the f-string renders a decoded title, exact for None, booleans, integers and strings |
| Chunker.SplitChunks | src/bridge.py:62-71 | the generator loop yields exactly `Chunks(msg, limit)` |
| Chunker.Pack | src/bridge.py:63-71 | definition (no contract of its own): what the generator yields from a buffer and the words still to read; its properties are the `Chunker.Pack…` lemmas below |
| Chunker.Chunks | src/bridge.py:62-71 | definition (no contract of its own): `list(split_chunks(msg, limit))`, `Pack` from an empty buffer over `msg.split()`; its properties are the `Chunker.Chunks…` lemmas below |
| Chunker.PackFlush | src/bridge.py:65-67 | a word that would overflow the buffer flushes the buffer and starts a new one |
| Chunker.PackExtend | src/bridge.py:68-69 | a word that fits joins the buffer after one space |
| Chunker.PackWords | src/bridge.py:62-71 | the fragments carry the words in order and are space-normalised |
| Chunker.PackBounded | src/bridge.py:62-71 | every fragment fits the limit or is a single over-long word; only the first can be empty |
| Chunker.PackGreedy | src/bridge.py:65-67 | a fragment is closed only when the next fragment's first word would overflow it |
| Chunker.PackEmptyFirst | src/bridge.py:65-67 | the first fragment is empty exactly when the first word alone overflows |
| Chunker.ChunksCarryWords | src/bridge.py:62-71 | the words of the fragments, in order, are the words of the message |
| Chunker.ChunksBounded | src/bridge.py:65 | every fragment is within `limit` bytes unless it is one word longer than that |
| Chunker.ChunksEmptyFirst | src/bridge.py:65-67 | only the first fragment can be empty, and it is exactly when the first word is `limit` bytes or more |
| Chunker.ChunksGreedy | src/bridge.py:65-69 | no two neighbouring fragments could have been merged |
| Chunker.ChunksOfBlank | src/bridge.py:70-71 | a message with no words yields no fragment |
| Chunker.ChunksJoin | src/bridge.py:62-71 | the non-empty fragments joined by spaces give back the message, space-normalised |
| Chunker.JoinGrows | src/bridge.py:65 | a longer word list never joins to fewer bytes |
| Chunker.PackFits | src/bridge.py:68-71 | words that fit together stay in the buffer and leave as one fragment |
| Chunker.ChunksFit | src/bridge.py:62-71 | a message whose first word is under the limit and whose space-normalised text fits leaves as one fragment, that text |
| Transport.Tagged | src/bridge.py:76-83 | one frame per fragment |
| Transport.TaggedAt | src/bridge.py:76-83 | frame `k` is fragment `k` on the given channel |
| Transport.Frames | src/bridge.py:74-83 | definition (no contract of its own): one `send_text` call is its message's fragments on one channel; see `Transport.TransmitOne`, `Transport.TransmitOnChannel` |
| Transport.Transmit | src/bridge.py:76-83 | definition (no contract of its own): a run of `send_text` calls on one channel, in call order; see `Transport.TransmitAppend`, `Transport.TransmitTwo` |
| Transport.TransmitAppend | src/bridge.py:169-172 | two batches of sends put the first batch's frames on the air, then the second's |
| Transport.TransmitOne | src/bridge.py:137 | one `send_text` call puts exactly its message's fragments on the air |
| Transport.TransmitTwo | src/bridge.py:171-172 | two sends in a row put the first message's fragments, then the second's |
| Transport.TransmitOnChannel | src/bridge.py:74-83 | every frame of a run of sends is on the channel they were sent to |
| Transport.LogAppend | src/bridge.py:160-175 | a log extended by a further batch holds the frames of both batches, in order |
| Feed.LooksLikeHtml | src/bridge.py:30 | definition (no contract of its own): `_HTML_RE.match(raw)`, a case-insensitive match of `<!doctype html>` or `<html` at the start; see `Feed.HtmlAnyCase` |
| Feed.HtmlAnyCase | src/bridge.py:30 | the HTML sniff holds exactly when the body's first 15 (or 5) characters, ASCII-lower-cased, are `<!doctype html>` (or `<html`), whatever follows; such a body is idle |
| Feed.IsIdle | src/bridge.py:124 | a body that opens a JSON list or object is never taken for idle |
| Feed.ParseAlerts | src/bridge.py:91-98 | nothing for malformed JSON, a string or an empty list; a list as it is; any other value wrapped |
| Feed.ParseAlertsNormal | src/bridge.py:91-98 | re-reading the alerts as a list gives them back; several alerts come only from a list |
| Feed.CategoryOf | src/bridge.py:130 | `cat` takes precedence over `category`, which takes precedence over 0; a non-dict raises |
| Feed.CategoryAsText | src/bridge.py:130 | a category sent as decimal text is read as that number |
| Feed.Contribution | src/bridge.py:103-108 | an alert raises exactly when its category cannot be read; outside `cats` it adds nothing; in `cats` it adds the items of a list `data`, a string `data` itself, and nothing for a missing or any other `data` |
| Feed.Texts | src/bridge.py:109 | the strings of a list of JSON strings, position by position |
| Feed.Collect | src/bridge.py:101-108 | definition (no contract of its own): `out` after the loop has read the alerts in order, or the exception; see `Feed.CollectAppend`, `Feed.CollectRaisesIff`, `Feed.CollectRaisesLater` |
| Feed.JoinLocations | src/bridge.py:109 | `", ".join(out) or "כללי"`: raises exactly for a non-string item; otherwise the comma-joined strings when that text is non-empty, and "כללי" when it is empty |
| Feed.Locations | src/bridge.py:100-109 | the location text is never empty |
| Feed.FlattenedLocs | src/bridge.py:100-109 | the loop returns what `Locations` specifies, including raising |
| Feed.CollectRaisesLater | src/bridge.py:102-103 | once an alert's category fails, the whole call raises |
| Feed.CollectAppend | src/bridge.py:102-108 | alerts contribute in input order |
| Feed.CollectRaisesIff | src/bridge.py:103 | the loop raises exactly when some alert's category cannot be read, even one outside `cats` |
| Feed.OneAlertLocations | src/bridge.py:103-109 | one matching alert with a list of strings gives exactly those strings, comma-joined, when that text is not empty |
| Feed.NoLocationsIsGeneral | src/bridge.py:109 | when nothing is collected the location text is "כללי" |
| Phases.PhaseOf | src/bridge.py:33-38 | `Phase(code)` succeeds exactly for 0, 1, 6, 13, 14 and returns the member with that value |
| Phases.Code | src/bridge.py:33-38 | definition (no contract of its own): the enum value of each phase, NONE 0, PRE 14, ROCKET 1, AIRCRAFT 6, CLEAR 13; see `Phases.CodeRoundTrip` |
| Phases.CodeRoundTrip | src/bridge.py:33-38 | every phase is recovered from its value |
| Phases.AcceptedCategories | src/bridge.py:131 | of the accepted categories only 2 raises, and none gives NONE |
| Phases.Emoji | src/bridge.py:40-45 | every phase except NONE has a non-empty glyph |
| Phases.EmojiDistinct | src/bridge.py:40-45 | different phases have different glyphs |
| Packet.MakeTestLayout | src/bridge.py:111-116 | a test message is the packet layout without the glyph, of type "בדיקה ידנית" |
| Packet.PacketWords | src/bridge.py:111-113 | a packet's words are the glyph and labels with the words of the locations, title and timestamp in place |
| Packet.FormatPacket | src/bridge.py:111-113 | definition (no contract of its own): glyph, area, alert type and timestamp with their labels; see `Packet.PacketWords` |
| Packet.MakeTest | src/bridge.py:115-116 | definition (no contract of its own): the test message's layout; see `Packet.MakeTestLayout` |
| PhaseMachine.Poll | src/bridge.py:119-152 | at most one message per poll; only a handled alert sends; only a handled or aborted alert changes the state |
| PhaseMachine.NextPhase | src/bridge.py:131 | raises exactly for category 2; a category outside (1, 2, 6, 13, 14) keeps the current phase; an accepted category gives the phase whose value it is, never NONE |
| PhaseMachine.TitleOr | src/bridge.py:136 | definition (no contract of its own): `first.get("title", fallback)` as the f-string shows it |
| PhaseMachine.IdOf | src/bridge.py:140 | definition (no contract of its own): `first.get("id")`, JSON null when absent |
| PhaseMachine.QuietPolls | src/bridge.py:124-131 | idle or HTML bodies, no alerts, an unreadable category and category 2 change nothing and send nothing |
| PhaseMachine.UnknownCategory | src/bridge.py:131 | an unrecognised category keeps the phase; outside AIRCRAFT it changes nothing |
| PhaseMachine.PollConsistent | src/bridge.py:133-148 | an aircraft id is remembered only in AIRCRAFT, before and after every poll |
| PhaseMachine.NeverBackToNone | src/bridge.py:131-138 | once the phase leaves NONE it never returns |
| PhaseMachine.NewPhaseIsAlerting | src/bridge.py:131-138 | the phase changes only to PRE, ROCKET, AIRCRAFT or CLEAR |
| PhaseMachine.PhaseChange | src/bridge.py:133-140 | a phase change sends one packet led by the new glyph with the new category's locations; only entering AIRCRAFT records the id |
| PhaseMachine.PhaseEntered | src/bridge.py:131-138 | an accepted category other than 2 naming a phase other than the current one, with collectable locations, commits that phase and sends one packet (1 → ROCKET, 13 → CLEAR, 14 → PRE, 6 → AIRCRAFT) |
| PhaseMachine.PhaseChangeAborted | src/bridge.py:134-135 | when locations fail on a phase change, the id is already forgotten and the phase is kept |
| PhaseMachine.AircraftUpdate | src/bridge.py:142-148 | in AIRCRAFT an update is sent exactly for a truthy id that differs from the remembered one when the locations for (2, 6) can be collected; the id then becomes the remembered one |
| PhaseMachine.RepeatIsSilent | src/bridge.py:119-152 | polling the same feed again sends nothing and changes nothing |
| PhaseMachine.ReentryAnnounces | src/bridge.py:133-140 | entering AIRCRAFT always announces, whatever id was remembered before |
| PhaseMachine.RunConsistent | src/bridge.py:119-152 | the globals stay consistent over any run of polls from start-up |
| PhaseMachine.DistinctIdsAnnounced | src/bridge.py:142-148 | two aircraft alerts in a row with fresh ids send two packets |
| News.NewsMessages | src/bridge.py:165-172 | definition (no contract of its own): the messages one entry is sent as; see `News.NewsMessagesShape` |
| News.NewsMessagesShape | src/bridge.py:165-172 | one message (the glyph 📰, the title, a bar and the link) within 180 bytes, or the glyph and title and then the link alone exactly when that combined message is over 180 bytes |
| News.CandidateAt | src/bridge.py:160-164 | each entry's link and title are stripped in place |
| News.Candidate | src/bridge.py:161-164 | definition (no contract of its own): an entry with its link and title stripped |
| News.NewsStep | src/bridge.py:161-174 | an entry only adds to `seen_news` |
| News.StepFacts | src/bridge.py:161-174 | an entry sends nothing and changes nothing, or is sent with a non-empty unseen link; a non-empty link is seen afterwards |
| News.Pass | src/bridge.py:160-174 | definition (no contract of its own): the loop body applied to the stripped entries, last first; see `News.PassSeen`, `News.PassFresh`, `News.PassDistinct`, `News.PassAppend` |
| News.NewsPoll | src/bridge.py:159-175 | definition (no contract of its own): one pass over the feed's entries; see `News.RepollIsSilent`, `News.NewsCount` |
| News.MessagesOne | src/bridge.py:165-172 | the messages of one entry |
| News.MessagesConcat | src/bridge.py:160-175 | the messages of two runs of entries, in order |
| News.NewsFrames | src/bridge.py:167-172 | what one entry puts on the air: the combined message's fragments, or the title's then the link's |
| News.PassSeen | src/bridge.py:161-174 | after a pass `seen_news` is the old set plus every non-empty stripped link of the feed |
| News.PassFresh | src/bridge.py:161-174 | every entry sent had a non-empty link unseen before the pass and seen after it |
| News.PassDistinct | src/bridge.py:160-174 | no link is sent twice in one pass |
| News.PassSentLinks | src/bridge.py:161-174 | the links sent are exactly those the pass added to `seen_news` |
| News.AllSeenIsSilent | src/bridge.py:162-163 | a feed of empty or seen links sends nothing |
| News.RepollIsSilent | src/bridge.py:155-178 | a second pass over the same feed sends nothing |
| News.PassAppend | src/bridge.py:160 | for a feed `a + b` the items of `b` go first and `a` sees their links |
| News.NewsCount | src/bridge.py:160-174 | the number of entries sent is the number of new links in the feed |
| News.DistinctCount | src/bridge.py:174 | distinct links number as many as the entries sent |
| News.FullMessageOneFragment | src/bridge.py:168-169 | a combined message that fits leaves as one fragment |
| News.LongLinkEmptyFragment | src/bridge.py:65-67 | a one-word link of 180 bytes or more sent alone is preceded by an empty fragment |
| MeshBridge.Bridge.constructor | src/bridge.py:47-49 | start-up: phase NONE, no id, no seen links, nothing sent; the globals are consistent |
| MeshBridge.Bridge.SendText | src/bridge.py:74-84 | `send_text` appends exactly the message's fragments on the channel and changes nothing else |
| MeshBridge.Bridge.SendTest | src/bridge.py:194-195 | the `--test` message goes to the alerts channel |
| MeshBridge.Bridge.PollAlerts | src/bridge.py:119-152 | one alert-loop iteration leaves the globals and the log as `Poll` says, and keeps them consistent |
| MeshBridge.Bridge.Announce | src/bridge.py:165-172 | one entry's messages go to the news channel as `NewsMessages` says |
| MeshBridge.Bridge.Visit | src/bridge.py:161-175 | one loop body: skip, or send and remember the link |
| MeshBridge.Bridge.VisitFromEnd | src/bridge.py:160-175 | one step of the reversed walk keeps the walk on course for `NewsPoll` |
| MeshBridge.Bridge.PollNews | src/bridge.py:159-175 | one news-loop pass leaves `seen_news` and the log as `NewsPoll` says |
| AlertsOnly.Monitor.constructor | src/bridge-alerts_only.py:41-42 | start-up: phase NONE, no id, nothing sent |
| AlertsOnly.Monitor.SendText | src/bridge-alerts_only.py:67-71 | `send_text` appends exactly the message's fragments on the channel |
| AlertsOnly.Monitor.SendTest | src/bridge-alerts_only.py:120-121 | the `--test` message goes to the channel |
| AlertsOnly.Monitor.PollAlerts | src/bridge-alerts_only.py:126-163 | one loop iteration leaves the globals and the log as `Poll` says, and keeps them consistent |

The alerts-only helpers (`src/bridge-alerts_only.py:23-24, 27-39, 57-65,
79-106`) have the same code as the two-channel program's. The shared modules
model them, and the table cites the two-channel lines.

## Left out

- Network I/O (`fetch_body`, `feedparser.parse`) is an input: the poll takes the stripped body, and the news pass takes the entries.
- `json.loads` is not modelled. Its result is an input: malformed, or a decoded value. `json.loads` can also raise something other than `JSONDecodeError`: a `ValueError` for an integer literal of more than 4300 digits, or a `RecursionError` for deep nesting. `parse_alerts` (`src/bridge.py:92-95`) does not catch these, so the loop's `except` (`src/bridge.py:150`) ends that poll as aborted. The model cannot express this outcome: the nearest input, malformed, leaves the same state and sends nothing, but ends as "no alerts" rather than "aborted".
- The clock (`now_il`) is an input: the formatted timestamp.
- The radio (`SerialInterface`, `sendData`, `sendText`) is the append-only log `sent` of (channel, fragment) pairs. Encoding the fragment to bytes, hop limit and port number are not modelled.
- `channel_index_for`, `main`, argument parsing, `sys.exit`, logging, threads and `time.sleep` are not modelled. The channel slots are constructor parameters.
- An exception raised by the radio in the middle of `send_text` is not modelled. Sends always succeed.
- Json.Display: floats, lists and dicts are shown as fixed placeholders, not Python's `str()` text.
- Json.ToInt: `int()` of a string accepts only an optional sign and ASCII digits. Underscores and non-ASCII digits are not accepted. NaN and infinite floats are not modelled.
- The id comparison `cur_id != aircraft_id_last` uses structural equality of decoded values, not Python's cross-type numeric equality (`1 == 1.0 == True`).
- Text strings are sequences of Unicode scalar values. A JSON string holding an escaped lone surrogate (`"\ud800"`) cannot be represented. In the program, `.encode()` raises `UnicodeEncodeError` on such text (`src/bridge.py:65`), so a phase-change poll would abort after clearing `aircraft_id_last` and before committing the phase, on every poll while the feed carries it. The model does not capture this.
- Json.ToInt: on current Python, `int()` of a decimal string longer than 4300 digits raises `ValueError`; `ParseInt` accepts any length.
- News.Candidate: an entry's link and title are taken to be strings; a missing key is the empty string.
- The news loop's sleep between entries is not modelled, and neither is the exception handler around a pass. Sends cannot fail, so that handler has nothing to catch.
