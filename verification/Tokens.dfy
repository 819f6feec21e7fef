/** Words of a passage as byte ranges, and chunks of a fixed number of them. */
module Tokens {
  import opened Wrappers
  import opened Json
  import opened Texts

  // ------------------------------------------------------------------ words

  /** Byte offset of character `i`. */
  function At(text: string, i: nat): nat {
    ByteLen(if i <= |text| then text[..i] else text)
  }

  lemma AtNext(text: string, i: nat)
    requires i < |text|
    ensures At(text, i + 1) == At(text, i) + Utf8Len(text[i])
  {
    assert text[..i + 1] == text[..i] + [text[i]];
    ByteLenConcat(text[..i], [text[i]]);
    assert ByteLen([text[i]]) == Utf8Len(text[i]);
  }

  lemma {:induction false} AtMonotone(text: string, i: nat, j: nat)
    requires i < j <= |text|
    ensures At(text, i) < At(text, j)
  {
    AtNext(text, j - 1);
    if i < j - 1 {
      AtMonotone(text, i, j - 1);
    }
  }

  /** A maximal run of characters that are not whitespace. */
  predicate IsWord(text: string, a: nat, b: nat) {
    && a < b <= |text|
    && (forall i | a <= i < b :: !IsWhitespace(text[i]))
    && (a == 0 || IsWhitespace(text[a - 1]))
    && (b == |text| || IsWhitespace(text[b]))
  }

  type Span = (nat, nat)

  /** The words found from character `i` on, given the start of the word `i` is inside of. */
  function WordsFrom(text: string, i: nat, open: Option<nat>): seq<Span>
    requires i <= |text|
    decreases |text| - i
  {
    if i == |text| then (if open.Some? then [(open.value, i)] else [])
    else if IsWhitespace(text[i]) then
      (if open.Some? then [(open.value, i)] else []) + WordsFrom(text, i + 1, None)
    else WordsFrom(text, i + 1, if open.Some? then open else Some(i))
  }

  function Words(text: string): seq<Span> {
    WordsFrom(text, 0, None)
  }

  /** The scan at `i` with the word begun at `open`, or with none. */
  predicate Scanning(text: string, i: nat, open: Option<nat>) {
    && i <= |text|
    && match open
       case Some(a) =>
         && a < i && (forall j | a <= j < i :: !IsWhitespace(text[j])) && (a == 0 || IsWhitespace(text[a - 1]))
       case None => i == 0 || IsWhitespace(text[i - 1])
  }

  /** Where the words still to come begin. */
  function Pending(i: nat, open: Option<nat>): nat {
    match open case Some(a) => a case None => i
  }

  lemma ScanNext(text: string, i: nat, open: Option<nat>)
    requires i < |text| && Scanning(text, i, open)
    ensures Scanning(text, i + 1, if IsWhitespace(text[i]) then None else if open.Some? then open else Some(i))
  {
  }

  /** Words at or after character `from`, in order and apart. */
  predicate WordList(text: string, from: nat, r: seq<Span>) {
    && (forall k | 0 <= k < |r| :: IsWord(text, r[k].0, r[k].1) && from <= r[k].0)
    && (forall k | 0 < k < |r| :: r[k - 1].1 < r[k].0)
  }

  lemma WordListCons(text: string, from: nat, a: nat, b: nat, r: seq<Span>)
    requires IsWord(text, a, b) && from <= a && WordList(text, b + 1, r)
    ensures WordList(text, from, [(a, b)] + r)
  {
    hide IsWord;
    var s := [(a, b)] + r;
    assert a < b by {
      WordIsNotEmpty(text, a, b);
    }
    forall k | 0 < k < |s| ensures s[k - 1].1 < s[k].0 {
      assert s[k] == r[k - 1];
      assert k > 1 ==> s[k - 1] == r[k - 2];
    }
  }

  lemma WordIsNotEmpty(text: string, a: nat, b: nat)
    requires IsWord(text, a, b)
    ensures a < b
  {
  }

  lemma WordsStep(text: string, i: nat, open: Option<nat>)
    requires i < |text|
    ensures WordsFrom(text, i, open) ==
            if !IsWhitespace(text[i]) then WordsFrom(text, i + 1, if open.Some? then open else Some(i))
            else if open.Some? then [(open.value, i)] + WordsFrom(text, i + 1, None)
            else WordsFrom(text, i + 1, None)
  {
    hide IsWhitespace;
  }

  lemma ScannedWord(text: string, i: nat, a: nat)
    requires Scanning(text, i, Some(a)) && (i == |text| || IsWhitespace(text[i]))
    ensures IsWord(text, a, i)
  {
  }

  lemma NoWords(text: string, from: nat)
    ensures WordList(text, from, [])
  {
  }

  lemma WordListEarlier(text: string, from: nat, later: nat, r: seq<Span>)
    requires WordList(text, later, r) && from <= later
    ensures WordList(text, from, r)
  {
  }

  /** What is found is a word, in order and past what came before. */
  lemma {:induction false} WordsAreOrdered(text: string, i: nat, open: Option<nat>)
    requires Scanning(text, i, open)
    ensures WordList(text, Pending(i, open), WordsFrom(text, i, open))
    decreases |text| - i
  {
    if i == |text| {
      NoWords(text, i + 1);
      NoWords(text, i);
      hide WordList;
      if open.Some? {
        ScannedWord(text, i, open.value);
        WordListCons(text, open.value, open.value, i, []);
        assert [(open.value, i)] + [] == [(open.value, i)];
      }
    } else {
      ScanNext(text, i, open);
      WordsStep(text, i, open);
      if open.Some? && IsWhitespace(text[i]) {
        ScannedWord(text, i, open.value);
      }
      hide WordList, WordsFrom, IsWord, IsWhitespace, Scanning;
      if IsWhitespace(text[i]) {
        WordsAreOrdered(text, i + 1, None);
        if open.Some? {
          WordListCons(text, open.value, open.value, i, WordsFrom(text, i + 1, None));
        } else {
          WordListEarlier(text, i, i + 1, WordsFrom(text, i + 1, None));
        }
      } else {
        WordsAreOrdered(text, i + 1, if open.Some? then open else Some(i));
      }
    }
  }

  /** Every word from here on is found. */
  lemma {:induction false} EveryWordIsFound(text: string, i: nat, open: Option<nat>, a: nat, b: nat)
    requires Scanning(text, i, open) && IsWord(text, a, b) && Pending(i, open) <= a
    ensures (a, b) in WordsFrom(text, i, open)
    decreases |text| - i
  {
    if i < |text| {
      var next := if IsWhitespace(text[i]) then None else if open.Some? then open else Some(i);
      ScanNext(text, i, open);
      if IsWhitespace(text[i]) && open.Some? && open.value == a {
        assert b == i;
        assert (a, b) == WordsFrom(text, i, open)[0];
      } else {
        EveryWordIsFound(text, i + 1, next, a, b);
      }
    } else {
      assert open == Some(a) && b == i;
    }
  }

  /** The words are exactly the maximal runs, in order. */
  lemma WordsIff(text: string, a: nat, b: nat)
    ensures (a, b) in Words(text) <==> IsWord(text, a, b)
    ensures forall k | 0 < k < |Words(text)| :: Words(text)[k - 1].1 < Words(text)[k].0
  {
    WordsAreOrdered(text, 0, None);
    if IsWord(text, a, b) {
      EveryWordIsFound(text, 0, None, a, b);
    }
  }

  /** Character ranges as byte ranges. */
  function Bytes(text: string, spans: seq<Span>): (r: seq<Span>)
    ensures |r| == |spans|
    ensures forall k | 0 <= k < |r| :: r[k] == (At(text, spans[k].0), At(text, spans[k].1))
  {
    if spans == [] then [] else [(At(text, spans[0].0), At(text, spans[0].1))] + Bytes(text, spans[1..])
  }

  /** The byte ranges of the words of a passage. */
  function TokenOffsets(text: string): seq<Span> {
    Bytes(text, Words(text))
  }

  lemma BytesCons(text: string, a: nat, b: nat, rest: seq<Span>)
    ensures Bytes(text, [(a, b)] + rest) == [(At(text, a), At(text, b))] + Bytes(text, rest)
  {
    hide At;
    assert ([(a, b)] + rest)[1..] == rest;
  }

  /** What one character does to the words found so far. */
  lemma FoundStep(text: string, i: nat, open: Option<nat>, found: seq<Span>)
    requires i < |text|
    ensures found + Bytes(text, WordsFrom(text, i, open)) ==
            if !IsWhitespace(text[i]) then found + Bytes(text, WordsFrom(text, i + 1, if open.Some? then open else Some(i)))
            else if open.Some? then found + [(At(text, open.value), At(text, i))] + Bytes(text, WordsFrom(text, i + 1, None))
            else found + Bytes(text, WordsFrom(text, i + 1, None))
  {
    hide IsWhitespace, WordsFrom, At, Bytes;
    WordsStep(text, i, open);
    if open.Some? {
      BytesCons(text, open.value, i, WordsFrom(text, i + 1, None));
    }
  }

  lemma FoundEnd(text: string, open: Option<nat>, found: seq<Span>)
    ensures found + Bytes(text, WordsFrom(text, |text|, open)) ==
            if open.Some? then found + [(At(text, open.value), At(text, |text|))] else found
  {
    if open.Some? {
      assert [(open.value, |text|)][1..] == [];
    }
  }

  /** `passage_token_offsets`: one pass over the characters with their byte offsets. */
  method PassageTokenOffsets(text: string) returns (offsets: seq<Span>)
    ensures offsets == TokenOffsets(text)
  {
    offsets := [];
    var start: Option<nat> := None;
    var pos := 0;
    ghost var open: Option<nat> := None;
    assert At(text, 0) == 0;
    for i := 0 to |text|
      invariant pos == At(text, i) && Scanning(text, i, open)
      invariant start == match open case Some(a) => Some(At(text, a)) case None => None
      invariant offsets + Bytes(text, WordsFrom(text, i, open)) == TokenOffsets(text)
    {
      FoundStep(text, i, open, offsets);
      ScanNext(text, i, open);
      AtNext(text, i);
      if open.Some? {
        AtMonotone(text, open.value, i);
      }
      hide WordsFrom, Bytes, At, TokenOffsets, IsWhitespace;
      if IsWhitespace(text[i]) {
        if start.Some? {
          if pos > start.value {
            offsets := offsets + [(start.value, pos)];
          }
          start, open := None, None;
        }
      } else if start.None? {
        start, open := Some(pos), Some(i);
      }
      pos := pos + Utf8Len(text[i]);
    }
    FoundEnd(text, open, offsets);
    if start.Some? {
      AtMonotone(text, open.value, |text|);
      if pos > start.value {
        offsets := offsets + [(start.value, pos)];
      }
    }
  }

  /** Nonempty byte ranges in order, inside a body of `len` bytes. */
  predicate Ordered(offsets: seq<Span>, len: nat) {
    && (forall k | 0 <= k < |offsets| :: offsets[k].0 < offsets[k].1 <= len)
    && (forall j, k | 0 <= j < k < |offsets| :: offsets[j].1 < offsets[k].0)
  }

  lemma {:induction false} Apart(text: string, from: nat, words: seq<Span>, j: nat, k: nat)
    requires WordList(text, from, words) && j < k < |words|
    ensures words[j].1 < words[k].0
  {
    assert words[k - 1].1 < words[k].0 && words[k - 1].0 < words[k - 1].1;
    if j < k - 1 {
      Apart(text, from, words, j, k - 1);
    }
  }

  lemma TokenOffsetsAreOrdered(text: string)
    ensures Ordered(TokenOffsets(text), ByteLen(text))
  {
    var words, r := Words(text), TokenOffsets(text);
    WordsAreOrdered(text, 0, None);
    assert text[..|text|] == text;
    forall k | 0 <= k < |r| ensures r[k].0 < r[k].1 <= ByteLen(text) {
      assert IsWord(text, words[k].0, words[k].1);
      AtMonotone(text, words[k].0, words[k].1);
      if words[k].1 < |text| {
        AtMonotone(text, words[k].1, |text|);
      }
    }
    forall j, k | 0 <= j < k < |r| ensures r[j].1 < r[k].0 {
      Apart(text, 0, words, j, k);
      assert IsWord(text, words[k].0, words[k].1);
      AtMonotone(text, words[j].1, words[k].0);
    }
  }

  // ----------------------------------------------------------------- chunks

  datatype Config = Config(size: nat, overlap: nat) {
    predicate Usable() {
      0 < overlap < size
    }

    /** Tokens by which each chunk moves on. */
    function Stride(): nat
      requires Usable()
    {
      size - overlap
    }
  }

  const SHIPPED := Config(400, 50)

  datatype Chunk = Chunk(start: nat, end: nat, tokens: nat)

  function Min(a: nat, b: nat): nat {
    if a < b then a else b
  }

  function CeilDiv(a: nat, b: nat): nat
    requires b > 0
  {
    (a + b - 1) / b
  }

  /** How many chunks `n` tokens make. */
  function ChunkCount(n: nat, cfg: Config): nat
    requires cfg.Usable()
  {
    if n <= cfg.size then 1 else CeilDiv(n - cfg.overlap, cfg.Stride())
  }

  /** The tokens of chunk `k`: `[k * stride, k * stride + size)`, as far as there are any. */
  function FirstToken(k: nat, cfg: Config): nat
    requires cfg.Usable()
  {
    k * cfg.Stride()
  }

  function EndToken(k: nat, n: nat, cfg: Config): nat
    requires cfg.Usable()
  {
    Min(FirstToken(k, cfg) + cfg.size, n)
  }

  /** The chunk of tokens `[first, end)`: from the start of the body or of its first token, to the
      end of its last token or of the body. */
  function ChunkOf(first: nat, end: nat, offsets: seq<Span>, len: nat): Chunk
    requires first < end <= |offsets|
  {
    Chunk(if first == 0 then 0 else offsets[first].0,
          if end == |offsets| then len else offsets[end - 1].1,
          end - first)
  }

  lemma StrideNext(k: nat, cfg: Config)
    requires cfg.Usable()
    ensures FirstToken(k + 1, cfg) == FirstToken(k, cfg) + cfg.Stride()
  {
    assert (k + 1) * cfg.Stride() == k * cfg.Stride() + cfg.Stride();
  }

  lemma CeilIs(m: nat, stride: nat, c: nat)
    requires stride > 0 && (c - 1) * stride < m <= c * stride
    ensures CeilDiv(m, stride) == c
  {
    var x := m + stride - 1;
    assert c * stride <= x < c * stride + stride by {
      assert (c - 1) * stride == c * stride - stride;
    }
    var q := x / stride;
    assert q * stride <= x < q * stride + stride;
    if q < c {
      MulAtMost(q + 1, c, stride);
    } else if q > c {
      MulAtMost(c + 1, q, stride);
    }
  }

  lemma MulAtMost(a: nat, b: nat, s: nat)
    requires a <= b
    ensures a * s <= b * s
  {
  }

  /** The chunk that takes the last token is the last of the count. */
  lemma LastChunk(k: nat, n: nat, cfg: Config)
    requires cfg.Usable() && n > cfg.size && FirstToken(k, cfg) + cfg.overlap < n <= FirstToken(k, cfg) + cfg.size
    ensures ChunkCount(n, cfg) == k + 1
  {
    StrideNext(k, cfg);
    CeilIs(n - cfg.overlap, cfg.Stride(), k + 1);
  }

  /** The chunks already cut are the first ones of the tiling. */
  predicate Tiles(chunks: seq<Chunk>, offsets: seq<Span>, len: nat, cfg: Config)
    requires cfg.Usable()
  {
    forall k | 0 <= k < |chunks| ::
      && FirstToken(k, cfg) < EndToken(k, |offsets|, cfg)
      && chunks[k] == ChunkOf(FirstToken(k, cfg), EndToken(k, |offsets|, cfg), offsets, len)
  }

  /** `split_into_chunks_by_token_offsets`. */
  method SplitByTokens(offsets: seq<Span>, len: nat, cfg: Config) returns (chunks: seq<Chunk>)
    requires cfg.Usable()
    ensures |offsets| <= cfg.size ==> chunks == [Chunk(0, len, |offsets|)]
    ensures |offsets| > cfg.size ==> Tiles(chunks, offsets, len, cfg)
    ensures |chunks| == ChunkCount(|offsets|, cfg)
  {
    if |offsets| <= cfg.size {
      return [Chunk(0, len, |offsets|)];
    }
    chunks := [];
    var first := 0;
    hide FirstToken, ChunkOf;
    assert FirstToken(0, cfg) == 0 by {
      FirstTokenZero(cfg);
    }
    while first < |offsets|
      invariant first == FirstToken(|chunks|, cfg) && first + cfg.overlap < |offsets|
      invariant Tiles(chunks, offsets, len, cfg)
      decreases |offsets| - first
    {
      var end := Min(first + cfg.size, |offsets|);
      StrideNext(|chunks|, cfg);
      if end == |offsets| {
        LastChunk(|chunks|, |offsets|, cfg);
      }
      chunks := chunks + [ChunkOf(first, end, offsets, len)];
      if end == |offsets| {
        return;
      }
      var next := if end >= cfg.overlap then end - cfg.overlap else 0;
      first := if next <= first then end else next;
    }
  }

  lemma FirstTokenZero(cfg: Config)
    requires cfg.Usable()
    ensures FirstToken(0, cfg) == 0
  {
  }

  /** The last chunk of the count takes the last token. */
  lemma LastEnds(n: nat, cfg: Config)
    requires cfg.Usable() && n > cfg.size
    ensures ChunkCount(n, cfg) >= 1 && EndToken(ChunkCount(n, cfg) - 1, n, cfg) == n
  {
    var c, s := ChunkCount(n, cfg), cfg.Stride();
    var x := n - cfg.overlap + s - 1;
    assert c == x / s && x < c * s + s;
    assert c != 0;
    StrideNext(c - 1, cfg);
  }

  /** The chunk that holds token `t` whole. */
  lemma HolderOf(t: nat, n: nat, cfg: Config) returns (k: nat)
    requires cfg.Usable() && cfg.size < n && t < n
    ensures k < ChunkCount(n, cfg) && FirstToken(k, cfg) <= t < EndToken(k, n, cfg)
  {
    LastEnds(n, cfg);
    var q := t / cfg.Stride();
    assert q * cfg.Stride() <= t < q * cfg.Stride() + cfg.Stride();
    if q < ChunkCount(n, cfg) {
      k := q;
    } else {
      k := ChunkCount(n, cfg) - 1;
      MulAtMost(k, q, cfg.Stride());
    }
  }

  lemma InOrder(offsets: seq<Span>, len: nat, i: nat, j: nat)
    requires Ordered(offsets, len) && i <= j < |offsets|
    ensures offsets[i].0 <= offsets[j].0 && offsets[i].1 <= offsets[j].1
  {
    assert i < j ==> offsets[i].1 < offsets[j].0;
  }

  /** Exactly the tokens from `k * stride` on, `size` of them, lie whole in chunk `k`. */
  lemma TokenIsInChunkIff(chunks: seq<Chunk>, offsets: seq<Span>, len: nat, cfg: Config, k: nat, t: nat)
    requires cfg.Usable() && Ordered(offsets, len) && t < |offsets| && k < |chunks|
    requires Tiles(chunks, offsets, len, cfg)
    ensures chunks[k].start <= offsets[t].0 && offsets[t].1 <= chunks[k].end
            <==> k * (cfg.size - cfg.overlap) <= t < k * (cfg.size - cfg.overlap) + cfg.size
    ensures chunks[k].tokens == if k * (cfg.size - cfg.overlap) + cfg.size < |offsets| then cfg.size
                                else |offsets| - k * (cfg.size - cfg.overlap)
  {
    var first, end := FirstToken(k, cfg), EndToken(k, |offsets|, cfg);
    assert first == k * (cfg.size - cfg.overlap);
    assert chunks[k] == ChunkOf(first, end, offsets, len) && first < end;
    hide FirstToken;
    if t < first {
      assert offsets[t].0 < offsets[t].1 < offsets[first].0;
    } else {
      InOrder(offsets, len, first, t);
    }
    if t >= end {
      assert offsets[end - 1].1 < offsets[t].0 < offsets[t].1;
    } else {
      InOrder(offsets, len, t, end - 1);
    }
  }

  /** Every token lies whole in some chunk, and no chunk holds more than `size` tokens. */
  lemma EveryTokenIsWhole(chunks: seq<Chunk>, offsets: seq<Span>, len: nat, cfg: Config, t: nat)
    requires cfg.Usable() && Ordered(offsets, len) && |offsets| > cfg.size && t < |offsets|
    requires Tiles(chunks, offsets, len, cfg) && |chunks| == ChunkCount(|offsets|, cfg)
    ensures exists k | 0 <= k < |chunks| :: chunks[k].start <= offsets[t].0 && offsets[t].1 <= chunks[k].end
    ensures forall k | 0 <= k < |chunks| :: 1 <= chunks[k].tokens <= cfg.size
  {
    var k := HolderOf(t, |offsets|, cfg);
    var first, end := FirstToken(k, cfg), EndToken(k, |offsets|, cfg);
    hide FirstToken, EndToken;
    assert chunks[k] == ChunkOf(first, end, offsets, len);
    InOrder(offsets, len, first, t);
    InOrder(offsets, len, t, end - 1);
    forall j | 0 <= j < |chunks| ensures 1 <= chunks[j].tokens <= cfg.size {
      TokensBound(j, |offsets|, cfg);
    }
  }

  lemma TokensBound(k: nat, n: nat, cfg: Config)
    requires cfg.Usable()
    ensures EndToken(k, n, cfg) <= FirstToken(k, cfg) + cfg.size
  {
  }

  /** Consecutive chunks leave no gap. */
  lemma NoGap(chunks: seq<Chunk>, offsets: seq<Span>, len: nat, cfg: Config, k: nat)
    requires cfg.Usable() && Ordered(offsets, len) && Tiles(chunks, offsets, len, cfg) && 0 < k < |chunks|
    ensures chunks[k].start <= chunks[k - 1].end
  {
    StrideNext(k - 1, cfg);
    var first, end := FirstToken(k, cfg), EndToken(k - 1, |offsets|, cfg);
    assert chunks[k] == ChunkOf(first, EndToken(k, |offsets|, cfg), offsets, len);
    assert chunks[k - 1] == ChunkOf(FirstToken(k - 1, cfg), end, offsets, len);
    hide FirstToken;
    assert first < end;
    InOrder(offsets, len, first, end - 1);
  }

  lemma {:induction false} CoveredUpTo(chunks: seq<Chunk>, offsets: seq<Span>, len: nat, cfg: Config, k: nat, b: nat)
    requires cfg.Usable() && Ordered(offsets, len) && Tiles(chunks, offsets, len, cfg) && k < |chunks| && b < chunks[k].end
    ensures exists i | 0 <= i < |chunks| :: chunks[i].start <= b < chunks[i].end
  {
    assert chunks[k] == ChunkOf(FirstToken(k, cfg), EndToken(k, |offsets|, cfg), offsets, len);
    if b < chunks[k].start {
      NoGap(chunks, offsets, len, cfg, k);
      CoveredUpTo(chunks, offsets, len, cfg, k - 1, b);
    }
  }

  /** Every byte of the body is in some chunk. */
  lemma EveryByteIsCovered(chunks: seq<Chunk>, offsets: seq<Span>, len: nat, cfg: Config, b: nat)
    requires cfg.Usable() && Ordered(offsets, len) && |offsets| > cfg.size && b < len
    requires Tiles(chunks, offsets, len, cfg) && |chunks| == ChunkCount(|offsets|, cfg)
    ensures exists i | 0 <= i < |chunks| :: chunks[i].start <= b < chunks[i].end
  {
    var k := |chunks| - 1;
    LastEnds(|offsets|, cfg);
    assert chunks[k] == ChunkOf(FirstToken(k, cfg), EndToken(k, |offsets|, cfg), offsets, len);
    CoveredUpTo(chunks, offsets, len, cfg, k, b);
  }
}
