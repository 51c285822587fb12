/** `class Phase(Enum)` and `PHASE_EMOJI`: the bridge's situational phases,
    each with the feed category code that is its enum value. */
module Phases {
  import opened Json

  /** NONE is the initial phase and has no glyph. */
  datatype Phase = None | Pre | Rocket | Aircraft | Clear

  /** The enum value: the feed category code of the phase. */
  function Code(p: Phase): int {
    match p
    case None => 0
    case Pre => 14
    case Rocket => 1
    case Aircraft => 6
    case Clear => 13
  }

  /** `Phase(code)`: the member whose value is `code`; any other integer
      raises `ValueError`. */
  function PhaseOf(code: int): (r: Fallible<Phase>)
    ensures r.Ok? <==> code in {0, 1, 6, 13, 14}
    ensures r.Ok? ==> Code(r.value) == code
  {
    if code == 0 then Ok(None)
    else if code == 14 then Ok(Pre)
    else if code == 1 then Ok(Rocket)
    else if code == 6 then Ok(Aircraft)
    else if code == 13 then Ok(Clear)
    else Raises
  }

  /** Every phase is found again from its code. */
  lemma CodeRoundTrip(p: Phase)
    ensures PhaseOf(Code(p)) == Ok(p)
  {
  }

  /** The categories the alert loop lets through to `Phase(...)`:
      `(1, 2, 6, 13, 14)`. */
  const Accepted: seq<int> := [1, 2, 6, 13, 14]

  /** Category 2 is accepted, but no phase has the value 2, so `Phase(2)`
      raises; every other accepted category names a phase other than NONE. */
  lemma AcceptedCategories(code: int)
    requires code in Accepted
    ensures PhaseOf(code).Raises? <==> code == 2
    ensures PhaseOf(code).Ok? ==> PhaseOf(code).value != None
  {
  }

  /** `PHASE_EMOJI[p]`; NONE has no entry. */
  function Emoji(p: Phase): (e: string)
    requires p != None
    ensures e != []
  {
    match p
    case Pre => "🟡"
    case Rocket => "🚨"
    case Aircraft => "✈️"
    case Clear => "✅"
  }

  /** Different phases have different glyphs. */
  lemma EmojiDistinct(p: Phase, q: Phase)
    requires p != None && q != None && p != q
    ensures Emoji(p) != Emoji(q)
  {
    assert Emoji(p)[0] != Emoji(q)[0];
  }
}
