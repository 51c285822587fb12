/** `split_chunks`: packing the words of a message into fragments whose UTF-8
    length stays within the transport limit, never splitting inside a word. */
module Chunker {
  import opened Text

  /** `MAX_CHUNK_LEN`, the payload limit `send_text` uses. */
  const MaxChunkLen: nat := 180

  /** What the generator yields from here on, given the words still to read
      and the buffer `buf` built so far. A word that would push the buffer
      (plus one separating space) over `limit` flushes the buffer, even when
      the buffer is still empty. */
  function Pack(words: seq<string>, buf: string, limit: nat): seq<string>
    decreases |words|
  {
    if words == [] then (if buf != "" then [buf] else [])
    else if Utf8Len(buf + " " + words[0]) > limit then [buf] + Pack(words[1..], words[0], limit)
    else Pack(words[1..], Strip(buf + " " + words[0]), limit)
  }

  /** `list(split_chunks(msg, limit))`. */
  function Chunks(msg: string, limit: nat): seq<string> {
    Pack(Words(msg), "", limit)
  }

  /** The generator as the source runs it: one pass over `msg.split()`. */
  method SplitChunks(msg: string, limit: nat) returns (parts: seq<string>)
    ensures parts == Chunks(msg, limit)
  {
    var words := Words(msg);
    var buf := "";
    parts := [];
    for i := 0 to |words|
      invariant Pack(words, "", limit) == parts + Pack(words[i..], buf, limit)
    {
      assert words[i..][1..] == words[i + 1..];
      if Utf8Len(buf + " " + words[i]) > limit {
        parts := parts + [buf];
        buf := words[i];
      } else {
        buf := Strip(buf + " " + words[i]);
      }
    }
    assert words[|words|..] == [];
    if buf != "" {
      parts := parts + [buf];
    }
  }

  // ------------------------------------------------------------ properties

  /** The words the fragments carry, fragment by fragment. */
  function Flat(parts: seq<string>): seq<string> {
    if parts == [] then [] else Words(parts[0]) + Flat(parts[1..])
  }

  /** The fragments that are not empty, in order. */
  function NonEmpty(parts: seq<string>): seq<string> {
    if parts == [] then []
    else if parts[0] == "" then NonEmpty(parts[1..])
    else [parts[0]] + NonEmpty(parts[1..])
  }

  /** A fragment is its own words joined by single spaces. */
  predicate Normalized(parts: seq<string>) {
    forall k :: 0 <= k < |parts| ==> parts[k] == Join(" ", Words(parts[k]))
  }

  /** What `Pack` is called with: words, and a buffer holding words joined by
      single spaces that fits the limit unless it is one word. */
  predicate Packable(words: seq<string>, cur: seq<string>, limit: nat) {
    AllWords(words) && AllWords(cur) &&
    (cur != [] ==> Utf8Len(Join(" ", cur)) <= limit || |cur| == 1)
  }

  /** A fragment within the limit, or a single (over-long) word. */
  predicate Fits(f: string, limit: nat) {
    Utf8Len(f) <= limit || |Words(f)| == 1
  }

  predicate AllFit(parts: seq<string>, limit: nat) {
    forall k :: 0 <= k < |parts| ==> Fits(parts[k], limit)
  }

  /** Fragment `k` was closed because the first word of fragment `k + 1`,
      after one space, would have overflowed it. */
  predicate Breaks(parts: seq<string>, k: int, limit: nat)
    requires 0 <= k < |parts| - 1
  {
    Words(parts[k + 1]) != [] && Utf8Len(parts[k]) + 1 + Utf8Len(Words(parts[k + 1])[0]) > limit
  }

  predicate Greedy(parts: seq<string>, limit: nat) {
    forall k :: 0 <= k < |parts| - 1 ==> Breaks(parts, k, limit)
  }

  /** No fragment but the first is empty. */
  predicate TailNonEmpty(parts: seq<string>) {
    forall k :: 0 < k < |parts| ==> parts[k] != ""
  }

  /** One step of the buffer: appending a word that fits keeps the buffer
      a space-joined word list that fits. */
  lemma AppendStep(cur: seq<string>, w: string, limit: nat)
    requires AllWords(cur) && IsWord(w)
    requires Utf8Len(Join(" ", cur) + " " + w) <= limit
    ensures Strip(Join(" ", cur) + " " + w) == Join(" ", cur + [w])
    ensures Utf8Len(Join(" ", cur + [w])) <= limit
  {
    StripAppendWord(cur, w);
    if cur == [] {
      assert Join(" ", cur) + " " + w == " " + w;
      Utf8LenAppend(" ", w);
    } else {
      JoinAppend(" ", cur, [w]);
    }
  }

  /** The bytes `len((buf + " " + word).encode())` counts. */
  lemma SpacedLen(buf: string, w: string)
    ensures Utf8Len(buf + " " + w) == Utf8Len(buf) + 1 + Utf8Len(w)
  {
    Utf8LenAppend(buf, " ");
    Utf8LenAppend(buf + " ", w);
  }

  /** The generator's two moves on a buffer of words: a word that does not
      fit closes the buffer as a fragment and starts a new one... */
  lemma PackFlush(words: seq<string>, cur: seq<string>, limit: nat)
    requires Packable(words, cur, limit) && words != []
    requires Utf8Len(Join(" ", cur) + " " + words[0]) > limit
    ensures Pack(words, Join(" ", cur), limit) ==
            [Join(" ", cur)] + Pack(words[1..], Join(" ", [words[0]]), limit)
    ensures Packable(words[1..], [words[0]], limit)
    ensures Utf8Len(Join(" ", cur)) + 1 + Utf8Len(words[0]) > limit
  {
    assert Join(" ", [words[0]]) == words[0];
    SpacedLen(Join(" ", cur), words[0]);
  }

  /** ...and a word that fits joins the buffer. */
  lemma PackExtend(words: seq<string>, cur: seq<string>, limit: nat)
    requires Packable(words, cur, limit) && words != []
    requires Utf8Len(Join(" ", cur) + " " + words[0]) <= limit
    ensures Pack(words, Join(" ", cur), limit) == Pack(words[1..], Join(" ", cur + [words[0]]), limit)
    ensures Packable(words[1..], cur + [words[0]], limit)
    ensures cur + [words[0]] + words[1..] == cur + words
  {
    AppendStep(cur, words[0], limit);
    assert AllWords(cur + [words[0]]);
    assert [words[0]] + words[1..] == words;
    assert cur + [words[0]] + words[1..] == cur + ([words[0]] + words[1..]);
  }

  /** Fragments carry the words in order and are space-normalised; a non-empty
      buffer makes a non-empty first fragment starting with its first word. */
  lemma {:induction false} PackWords(words: seq<string>, cur: seq<string>, limit: nat)
    requires Packable(words, cur, limit)
    ensures var r := Pack(words, Join(" ", cur), limit);
      && Flat(r) == cur + words
      && Normalized(r)
      && (cur != [] ==> r != [] && r[0] != "" && Words(r[0]) != [] && Words(r[0])[0] == cur[0])
    decreases |words|
  {
    var buf := Join(" ", cur);
    WordsOfJoin(cur);
    JoinWordsShape(cur);
    if words == [] {
      assert Flat(Pack(words, buf, limit)) == cur;
    } else if Utf8Len(buf + " " + words[0]) > limit {
      PackFlush(words, cur, limit);
      PackWords(words[1..], [words[0]], limit);
      var r' := Pack(words[1..], Join(" ", [words[0]]), limit);
      var r := [buf] + r';
      assert r[1..] == r';
      assert Flat(r) == cur + Flat(r');
      assert [words[0]] + words[1..] == words;
    } else {
      PackExtend(words, cur, limit);
      PackWords(words[1..], cur + [words[0]], limit);
    }
  }

  /** Fragments fit the limit unless they are one word, and only the first
      can be empty. */
  lemma {:induction false} PackBounded(words: seq<string>, cur: seq<string>, limit: nat)
    requires Packable(words, cur, limit)
    ensures AllFit(Pack(words, Join(" ", cur), limit), limit)
    ensures TailNonEmpty(Pack(words, Join(" ", cur), limit))
    decreases |words|
  {
    var buf := Join(" ", cur);
    WordsOfJoin(cur);
    JoinWordsShape(cur);
    if words == [] {
    } else if Utf8Len(buf + " " + words[0]) > limit {
      PackFlush(words, cur, limit);
      PackBounded(words[1..], [words[0]], limit);
      PackWords(words[1..], [words[0]], limit);
      assert Fits(buf, limit);
    } else {
      PackExtend(words, cur, limit);
      PackBounded(words[1..], cur + [words[0]], limit);
    }
  }

  /** Every fragment boundary is forced by the next word. */
  lemma {:induction false} PackGreedy(words: seq<string>, cur: seq<string>, limit: nat)
    requires Packable(words, cur, limit)
    ensures Greedy(Pack(words, Join(" ", cur), limit), limit)
    decreases |words|
  {
    var buf := Join(" ", cur);
    if words == [] {
    } else if Utf8Len(buf + " " + words[0]) > limit {
      PackFlush(words, cur, limit);
      PackGreedy(words[1..], [words[0]], limit);
      PackWords(words[1..], [words[0]], limit);
      var r' := Pack(words[1..], Join(" ", [words[0]]), limit);
      var r := [buf] + r';
      forall k | 0 <= k < |r| - 1
        ensures Breaks(r, k, limit)
      {
        if k > 0 {
          assert Breaks(r', k - 1, limit);
        }
      }
    } else {
      PackExtend(words, cur, limit);
      PackGreedy(words[1..], cur + [words[0]], limit);
    }
  }

  /** The first fragment is empty exactly when the buffer starts empty and
      the first word alone takes `limit` bytes or more. */
  lemma PackEmptyFirst(words: seq<string>, cur: seq<string>, limit: nat)
    requires Packable(words, cur, limit)
    ensures var r := Pack(words, Join(" ", cur), limit);
      (r != [] && r[0] == "") <==> (cur == [] && words != [] && Utf8Len(words[0]) >= limit)
  {
    PackWords(words, cur, limit);
    if cur == [] && words != [] {
      var w := words[0];
      assert Join(" ", cur) + " " + w == " " + w;
      Utf8LenAppend(" ", w);
      if Utf8Len(" " + w) <= limit {
        PackExtend(words, cur, limit);
        PackWords(words[1..], [w], limit);
        assert cur + [w] == [w];
      } else {
        PackFlush(words, cur, limit);
      }
    }
  }

  /** The fragments carry exactly the message's words, in order, each
      fragment being its words joined by single spaces. */
  lemma ChunksCarryWords(msg: string, limit: nat)
    ensures Flat(Chunks(msg, limit)) == Words(msg)
    ensures Normalized(Chunks(msg, limit))
  {
    WordsAreWords(msg);
    PackWords(Words(msg), [], limit);
  }

  /** Every fragment fits the limit, unless it is a single over-long word. */
  lemma ChunksBounded(msg: string, limit: nat)
    ensures forall k :: 0 <= k < |Chunks(msg, limit)| ==>
      Utf8Len(Chunks(msg, limit)[k]) <= limit || |Words(Chunks(msg, limit)[k])| == 1
  {
    WordsAreWords(msg);
    PackBounded(Words(msg), [], limit);
    assert forall k :: 0 <= k < |Chunks(msg, limit)| ==> Fits(Chunks(msg, limit)[k], limit);
  }

  /** Only the first fragment can be empty, and it is empty exactly when the
      first word alone takes `limit` bytes or more. */
  lemma ChunksEmptyFirst(msg: string, limit: nat)
    ensures forall k :: 0 < k < |Chunks(msg, limit)| ==> Chunks(msg, limit)[k] != ""
    ensures (Chunks(msg, limit) != [] && Chunks(msg, limit)[0] == "") <==>
            (Words(msg) != [] && Utf8Len(Words(msg)[0]) >= limit)
  {
    WordsAreWords(msg);
    PackBounded(Words(msg), [], limit);
    PackEmptyFirst(Words(msg), [], limit);
  }

  /** Packing is greedy: a fragment ends only where the next word, after one
      space, would not have fitted. */
  lemma ChunksGreedy(msg: string, limit: nat)
    ensures Greedy(Chunks(msg, limit), limit)
  {
    WordsAreWords(msg);
    PackGreedy(Words(msg), [], limit);
  }

  /** A message without words yields no fragment at all. */
  lemma ChunksOfBlank(msg: string, limit: nat)
    requires Words(msg) == []
    ensures Chunks(msg, limit) == []
  {
  }

  /** Joining normalised fragments, skipping empty ones, joins their words. */
  lemma {:induction false} JoinNonEmpty(parts: seq<string>)
    requires Normalized(parts)
    ensures Join(" ", NonEmpty(parts)) == Join(" ", Flat(parts))
    ensures NonEmpty(parts) == [] <==> Flat(parts) == []
  {
    if parts != [] {
      var p := parts[0];
      assert Normalized(parts[1..]) by {
        forall k | 0 <= k < |parts[1..]|
          ensures parts[1..][k] == Join(" ", Words(parts[1..][k]))
        {
          assert parts[1..][k] == parts[k + 1];
        }
      }
      JoinNonEmpty(parts[1..]);
      assert p == Join(" ", Words(p));
      assert Flat(parts) == Words(p) + Flat(parts[1..]);
      if p != "" {
        assert Words(p) != [];
        assert NonEmpty(parts) == [p] + NonEmpty(parts[1..]);
        if NonEmpty(parts[1..]) != [] {
          JoinAppend(" ", [p], NonEmpty(parts[1..]));
          JoinAppend(" ", Words(p), Flat(parts[1..]));
        } else {
          assert Flat(parts) == Words(p) + [];
          assert Words(p) + [] == Words(p);
          assert NonEmpty(parts) == [p];
          assert Join(" ", NonEmpty(parts)) == p;
        }
      } else {
        assert Words(p) == [];
        assert Flat(parts) == Flat(parts[1..]);
        assert NonEmpty(parts) == NonEmpty(parts[1..]);
      }
    }
  }

  /** `" ".join(f for f in split_chunks(msg, limit) if f)` is
      `" ".join(msg.split())`. */
  lemma ChunksJoin(msg: string, limit: nat)
    ensures Join(" ", NonEmpty(Chunks(msg, limit))) == Normalize(msg)
  {
    ChunksCarryWords(msg, limit);
    JoinNonEmpty(Chunks(msg, limit));
  }

  /** Adding words never shortens a space-joined list. */
  lemma JoinGrows(a: seq<string>, b: seq<string>)
    requires a != []
    ensures Utf8Len(Join(" ", a)) <= Utf8Len(Join(" ", a + b))
  {
    if b != [] {
      JoinAppend(" ", a, b);
      Utf8LenAppend(Join(" ", a) + " ", Join(" ", b));
      Utf8LenAppend(Join(" ", a), " ");
    } else {
      assert a + b == a;
    }
  }

  lemma {:induction false} PackFits(words: seq<string>, cur: seq<string>, limit: nat)
    requires AllWords(words) && AllWords(cur) && cur != []
    requires Utf8Len(Join(" ", cur + words)) <= limit
    ensures Pack(words, Join(" ", cur), limit) == [Join(" ", cur + words)]
    decreases |words|
  {
    JoinWordsShape(cur);
    if words == [] {
      assert cur + words == cur;
    } else {
      var w := words[0];
      assert cur + words == (cur + [w]) + words[1..];
      JoinGrows(cur + [w], words[1..]);
      JoinAppend(" ", cur, [w]);
      AppendStep(cur, w, limit);
      PackFits(words[1..], cur + [w], limit);
    }
  }

  /** A message whose normalised form fits, and whose first word leaves room
      for the space the generator puts before it, goes out as one fragment. */
  lemma ChunksFit(msg: string, limit: nat)
    requires Words(msg) != []
    requires Utf8Len(Words(msg)[0]) < limit
    requires Utf8Len(Normalize(msg)) <= limit
    ensures Chunks(msg, limit) == [Normalize(msg)]
  {
    var ws := Words(msg);
    WordsAreWords(msg);
    Utf8LenAppend(" ", ws[0]);
    assert "" + " " + ws[0] == " " + ws[0];
    AppendStep([], ws[0], limit);
    assert [ws[0]] + ws[1..] == ws;
    PackFits(ws[1..], [ws[0]], limit);
  }
}
