/** `send_text`: a message leaves as the fragments `split_chunks` makes of
    it, each addressed to one channel. The radio is an append-only log of
    (channel index, fragment) pairs. */
module Transport {
  import opened Chunker

  /** One transmitted fragment: the channel index and the text. */
  type Frame = (int, string)

  /** The fragments `parts`, each on channel `ch`, in order. */
  function Tagged(ch: int, parts: seq<string>): (r: seq<Frame>)
    ensures |r| == |parts|
    decreases |parts|
  {
    if parts == [] then [] else Tagged(ch, parts[..|parts| - 1]) + [(ch, parts[|parts| - 1])]
  }

  /** Fragment `k` on the air is part `k`, on channel `ch`. */
  lemma {:induction false} TaggedAt(ch: int, parts: seq<string>, k: nat)
    requires k < |parts|
    ensures Tagged(ch, parts)[k] == (ch, parts[k])
    decreases |parts|
  {
    var n := |parts| - 1;
    if k < n {
      TaggedAt(ch, parts[..n], k);
    }
  }

  /** What `send_text(iface, ch, message)` puts on the air. */
  function Frames(ch: int, message: string): seq<Frame> {
    Tagged(ch, Chunks(message, MaxChunkLen))
  }

  /** What a sequence of `send_text` calls on one channel puts on the air. */
  function Transmit(ch: int, messages: seq<string>): seq<Frame>
    decreases |messages|
  {
    if messages == [] then []
    else Transmit(ch, messages[..|messages| - 1]) + Frames(ch, messages[|messages| - 1])
  }

  /** Sending two batches one after the other transmits the first batch's
      fragments, then the second's. */
  lemma {:induction false} TransmitAppend(ch: int, a: seq<string>, b: seq<string>)
    ensures Transmit(ch, a + b) == Transmit(ch, a) + Transmit(ch, b)
    decreases |b|
  {
    if b == [] {
      assert a + b == a;
    } else {
      var n := |b| - 1;
      assert (a + b)[..|a + b| - 1] == a + b[..n];
      assert (a + b)[|a + b| - 1] == b[n];
      var last := Frames(ch, b[n]);
      assert Transmit(ch, a + b) == Transmit(ch, a + b[..n]) + last;
      TransmitAppend(ch, a, b[..n]);
      assert Transmit(ch, b) == Transmit(ch, b[..n]) + last;
      assert Transmit(ch, a) + Transmit(ch, b[..n]) + last == Transmit(ch, a) + (Transmit(ch, b[..n]) + last);
    }
  }

  /** Sending one message transmits its fragments. */
  lemma TransmitOne(ch: int, m: string)
    ensures Transmit(ch, [m]) == Frames(ch, m)
  {
    assert [m][..0] == [];
  }

  /** Every transmitted fragment is on channel `ch`. */
  lemma {:induction false} TransmitOnChannel(ch: int, messages: seq<string>)
    ensures forall k :: 0 <= k < |Transmit(ch, messages)| ==> Transmit(ch, messages)[k].0 == ch
    decreases |messages|
  {
    if messages != [] {
      var n := |messages| - 1;
      TransmitOnChannel(ch, messages[..n]);
      var parts := Chunks(messages[n], MaxChunkLen);
      forall k | 0 <= k < |parts|
        ensures Tagged(ch, parts)[k].0 == ch
      {
        TaggedAt(ch, parts, k);
      }
    }
  }

  /** The fragments of two messages sent one after the other. */
  lemma TransmitTwo(ch: int, m1: string, m2: string)
    ensures Transmit(ch, [m1, m2]) == Frames(ch, m1) + Frames(ch, m2)
  {
    assert [m1, m2][..1] == [m1];
    TransmitOne(ch, m1);
  }

  /** A log holding the fragments of `ms`, extended by those of `extra`,
      holds the fragments of `ms + extra`. */
  lemma LogAppend(ch: int, start: seq<Frame>, log: seq<Frame>, log2: seq<Frame>,
                  ms: seq<string>, extra: seq<string>)
    requires log == start + Transmit(ch, ms)
    requires log2 == log + Transmit(ch, extra)
    ensures log2 == start + Transmit(ch, ms + extra)
  {
    TransmitAppend(ch, ms, extra);
    assert start + Transmit(ch, ms) + Transmit(ch, extra) ==
           start + (Transmit(ch, ms) + Transmit(ch, extra));
  }
}
