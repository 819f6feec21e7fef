/**
 Overlapping chunks of a body, cut at the last paragraph, sentence or word break.

 The loop restarts `overlap` bytes before the end of the chunk it just cut, so a
 chunk no longer than the overlap sends it back to where it was. `TerminatesIff`
 says for which bodies the loop ends.
 */
module Chunking {
  import opened Wrappers
  import opened Utf8

  datatype Config = Config(size: nat, overlap: nat)

  /** 400 and 50 tokens at two bytes each. */
  const SHIPPED := Config(800, 100)

  /** A chunk that ends at its size limit, give or take a character, is longer than the overlap. */
  predicate Usable(cfg: Config) {
    cfg.overlap + 3 < cfg.size
  }

  const PARAGRAPH: seq<Byte> := [10, 10]
  const SENTENCE: seq<Byte> := [46, 32]
  const WORD: seq<Byte> := [32]

  // ----------------------------------------------------------------- breaks

  predicate Occurs(body: seq<Byte>, p: int, pattern: seq<Byte>) {
    0 <= p && p + |pattern| <= |body| && forall k | 0 <= k < |pattern| :: body[p + k] == pattern[k]
  }

  /** `rfind` in `body[lo..hi]`, as an offset of `body`. */
  function LastBreak(body: seq<Byte>, lo: nat, hi: nat, pattern: seq<Byte>): Option<nat>
    requires hi <= |body| && pattern != []
    decreases hi
  {
    if lo + |pattern| > hi then None
    else if Occurs(body, hi - |pattern|, pattern) then Some(hi - |pattern|)
    else LastBreak(body, lo, hi - 1, pattern)
  }

  lemma {:induction false} LastBreakIs(body: seq<Byte>, lo: nat, hi: nat, pattern: seq<Byte>)
    requires hi <= |body| && pattern != []
    ensures match LastBreak(body, lo, hi, pattern)
            case Some(p) =>
              && lo <= p && p + |pattern| <= hi && Occurs(body, p, pattern)
              && forall q | p < q && q + |pattern| <= hi :: !Occurs(body, q, pattern)
            case None => forall q | lo <= q && q + |pattern| <= hi :: !Occurs(body, q, pattern)
    decreases hi
  {
    if lo + |pattern| <= hi && !Occurs(body, hi - |pattern|, pattern) {
      LastBreakIs(body, lo, hi - 1, pattern);
    }
  }

  /** The offset just past the last occurrence. */
  function BreakEnd(body: seq<Byte>, lo: nat, hi: nat, pattern: seq<Byte>): Option<nat>
    requires hi <= |body| && pattern != []
  {
    match LastBreak(body, lo, hi, pattern) case Some(p) => Some(p + |pattern|) case None => None
  }

  /** The end of the last break of the preferred kind, or the limit itself. */
  function SplitPoint(body: seq<Byte>, start: nat, limit: nat): nat
    requires limit <= |body|
  {
    if BreakEnd(body, start, limit, PARAGRAPH).Some? then BreakEnd(body, start, limit, PARAGRAPH).value
    else if BreakEnd(body, start, limit, SENTENCE).Some? then BreakEnd(body, start, limit, SENTENCE).value
    else if BreakEnd(body, start, limit, WORD).Some? then BreakEnd(body, start, limit, WORD).value
    else limit
  }

  // -------------------------------------------------------------- one chunk

  function Limit(body: seq<Byte>, cfg: Config, start: nat): (r: nat)
    ensures r <= |body| && r <= start + cfg.size
  {
    PrevBoundary(body, if start + cfg.size < |body| then start + cfg.size else |body|)
  }

  /** Where the chunk that begins at `start` ends. */
  function End(body: seq<Byte>, cfg: Config, start: nat): nat {
    if Limit(body, cfg, start) < |body| then SplitPoint(body, start, Limit(body, cfg, start)) else |body|
  }

  /** Where the chunk after one ending at `end` begins. */
  function NextStart(body: seq<Byte>, cfg: Config, end: nat): (r: nat)
    requires end <= |body|
    ensures r <= end
  {
    var n := NextBoundary(body, if end >= cfg.overlap then end - cfg.overlap else 0);
    if n >= end then end else n
  }

  predicate Startable(body: seq<Byte>, cfg: Config, start: nat) {
    start < |body| && IsBoundary(body, start)
  }

  lemma LimitIsPast(body: seq<Byte>, cfg: Config, start: nat)
    requires WellFormed(body) && Usable(cfg) && Startable(body, cfg, start)
    ensures start + cfg.overlap < Limit(body, cfg, start) || Limit(body, cfg, start) == |body|
    ensures start < Limit(body, cfg, start) && IsBoundary(body, Limit(body, cfg, start))
  {
    PrevBoundaryIsNear(body, if start + cfg.size < |body| then start + cfg.size else |body|);
  }

  lemma BreakEndBounds(body: seq<Byte>, lo: nat, hi: nat, pattern: seq<Byte>)
    requires WellFormed(body) && hi <= |body| && pattern != [] && pattern[|pattern| - 1] < 0x80
    ensures match BreakEnd(body, lo, hi, pattern)
            case Some(e) => lo < e <= hi && IsBoundary(body, e)
            case None => true
  {
    LastBreakIs(body, lo, hi, pattern);
    match LastBreak(body, lo, hi, pattern) {
      case Some(p) =>
        assert body[p + (|pattern| - 1)] == pattern[|pattern| - 1];
        AfterAscii(body, p + |pattern| - 1);
      case None =>
    }
  }

  lemma SplitPointBounds(body: seq<Byte>, start: nat, limit: nat)
    requires WellFormed(body) && start < limit <= |body| && IsBoundary(body, limit)
    ensures start < SplitPoint(body, start, limit) <= limit && IsBoundary(body, SplitPoint(body, start, limit))
  {
    hide BreakEnd, IsBoundary, WellFormed;
    BreakEndBounds(body, start, limit, PARAGRAPH);
    BreakEndBounds(body, start, limit, SENTENCE);
    BreakEndBounds(body, start, limit, WORD);
  }

  /** A chunk is not empty, not longer than its size, and ends where a character does. */
  lemma EndBounds(body: seq<Byte>, cfg: Config, start: nat)
    requires WellFormed(body) && Usable(cfg) && Startable(body, cfg, start)
    ensures start < End(body, cfg, start) <= |body|
    ensures End(body, cfg, start) <= start + cfg.size && IsBoundary(body, End(body, cfg, start))
  {
    LimitIsPast(body, cfg, start);
    if Limit(body, cfg, start) < |body| {
      SplitPointBounds(body, start, Limit(body, cfg, start));
    }
  }

  lemma NextStartBounds(body: seq<Byte>, cfg: Config, end: nat)
    requires WellFormed(body) && 0 < end < |body| && IsBoundary(body, end)
    ensures NextStart(body, cfg, end) <= end <= NextStart(body, cfg, end) + cfg.overlap
    ensures Startable(body, cfg, NextStart(body, cfg, end))
  {
  }

  /** The loop moves on exactly when the chunk is longer than the overlap. */
  lemma ProgressIff(body: seq<Byte>, cfg: Config, start: nat, end: nat)
    requires IsBoundary(body, start) && start < end < |body|
    ensures NextStart(body, cfg, end) > start <==> end > start + cfg.overlap
  {
    if end <= start + cfg.overlap {
      NextBoundaryIsFirst(body, if end >= cfg.overlap then end - cfg.overlap else 0, start);
    }
  }

  // ---------------------------------------------------------------- the loop

  /** The start of the loop's `n`-th iteration; `None` once it has ended. */
  function Visit(body: seq<Byte>, cfg: Config, n: nat): Option<nat> {
    if n == 0 then (if |body| > 0 then Some(0) else None)
    else
      match Visit(body, cfg, n - 1)
      case None => None
      case Some(s) =>
        if End(body, cfg, s) >= |body| then None else Some(NextStart(body, cfg, End(body, cfg, s)))
  }

  ghost predicate Terminates(body: seq<Byte>, cfg: Config) {
    exists n: nat :: Visit(body, cfg, n).None?
  }

  /** From `start` on, every chunk but the last is longer than the overlap. */
  predicate Progresses(body: seq<Byte>, cfg: Config, start: nat)
    decreases |body| - start
  {
    var end := End(body, cfg, start);
    end >= |body| ||
    (end > start + cfg.overlap && start < NextStart(body, cfg, end) < |body|
     && Progresses(body, cfg, NextStart(body, cfg, end)))
  }

  /** A break seen from further back, in a window ending no later: it starts before `s`, or `s` saw one as late. */
  lemma EarlierBreakOfKind(body: seq<Byte>, s: nat, limit: nat, earlier: nat, limit2: nat, pattern: seq<Byte>)
    requires earlier <= s && limit2 <= limit <= |body| && 1 <= |pattern| <= 2
    ensures match (BreakEnd(body, earlier, limit2, pattern), BreakEnd(body, s, limit, pattern))
            case (Some(e2), Some(e)) => e2 <= s + 1 || e2 <= e
            case (Some(e2), None) => e2 <= s + 1
            case (None, Some(e)) => limit2 < e
            case (None, None) => true
  {
    LastBreakIs(body, s, limit, pattern);
    LastBreakIs(body, earlier, limit2, pattern);
  }

  /** So a window that broke never gains from starting further back. */
  lemma EarlierBreak(body: seq<Byte>, s: nat, limit: nat, earlier: nat, limit2: nat)
    requires WellFormed(body) && earlier <= s < limit <= |body| && IsBoundary(body, limit) && limit2 <= limit
    requires SplitPoint(body, s, limit) < limit
    ensures SplitPoint(body, earlier, limit2) <= SplitPoint(body, s, limit)
  {
    SplitPointBounds(body, s, limit);
    BreakEndBounds(body, earlier, limit2, PARAGRAPH);
    BreakEndBounds(body, earlier, limit2, SENTENCE);
    BreakEndBounds(body, earlier, limit2, WORD);
    hide BreakEnd, WellFormed, IsBoundary;
    EarlierBreakOfKind(body, s, limit, earlier, limit2, PARAGRAPH);
    EarlierBreakOfKind(body, s, limit, earlier, limit2, SENTENCE);
    EarlierBreakOfKind(body, s, limit, earlier, limit2, WORD);
  }

  lemma LimitMonotone(body: seq<Byte>, cfg: Config, earlier: nat, s: nat)
    requires earlier <= s
    ensures Limit(body, cfg, earlier) <= Limit(body, cfg, s)
  {
    PrevBoundaryIsLast(body, if s + cfg.size < |body| then s + cfg.size else |body|, Limit(body, cfg, earlier));
  }

  /** A chunk no longer than the overlap, and what the loop restarted there finds: nothing further on. */
  lemma StuckEnds(body: seq<Byte>, cfg: Config, s: nat, earlier: nat)
    requires WellFormed(body) && Usable(cfg) && Startable(body, cfg, s) && earlier <= s
    requires End(body, cfg, s) < |body| && End(body, cfg, s) <= s + cfg.overlap
    ensures End(body, cfg, earlier) <= End(body, cfg, s)
  {
    LimitIsPast(body, cfg, s);
    LimitMonotone(body, cfg, earlier, s);
    EarlierBreak(body, s, Limit(body, cfg, s), earlier, Limit(body, cfg, earlier));
  }

  lemma NextStartMonotone(body: seq<Byte>, cfg: Config, e: nat, f: nat)
    requires e <= f <= |body|
    ensures NextStart(body, cfg, e) <= NextStart(body, cfg, f)
  {
    NextBoundaryMonotone(body, if e >= cfg.overlap then e - cfg.overlap else 0, if f >= cfg.overlap then f - cfg.overlap else 0);
  }

  /** One iteration: where the loop goes from `s`. */
  function Moved(body: seq<Byte>, cfg: Config, s: nat): Option<nat> {
    if End(body, cfg, s) >= |body| then None else Some(NextStart(body, cfg, End(body, cfg, s)))
  }

  lemma VisitNext(body: seq<Byte>, cfg: Config, n: nat)
    ensures Visit(body, cfg, n).None? ==> Visit(body, cfg, n + 1).None?
    ensures Visit(body, cfg, n).Some? ==> Visit(body, cfg, n + 1) == Moved(body, cfg, Visit(body, cfg, n).value)
  {
  }

  /** A chunk that is not the last and no longer than the overlap. */
  predicate Stuck(body: seq<Byte>, cfg: Config, s: nat) {
    End(body, cfg, s) < |body| && End(body, cfg, s) <= s + cfg.overlap
  }

  lemma MovedIsStartable(body: seq<Byte>, cfg: Config, s: nat)
    requires WellFormed(body) && Usable(cfg) && Startable(body, cfg, s) && Moved(body, cfg, s).Some?
    ensures Startable(body, cfg, Moved(body, cfg, s).value)
    ensures Stuck(body, cfg, s) <==> Moved(body, cfg, s).value <= s
  {
    EndBounds(body, cfg, s);
    NextStartBounds(body, cfg, End(body, cfg, s));
    ProgressIff(body, cfg, s, End(body, cfg, s));
  }

  /** From at or before a stuck start, the loop moves to at or before it. */
  lemma StuckMoves(body: seq<Byte>, cfg: Config, s: nat, earlier: nat)
    requires WellFormed(body) && Usable(cfg) && Startable(body, cfg, s) && earlier <= s && Stuck(body, cfg, s)
    ensures Moved(body, cfg, earlier).Some? && Moved(body, cfg, earlier).value <= s
  {
    StuckEnds(body, cfg, s, earlier);
    NextStartMonotone(body, cfg, End(body, cfg, earlier), End(body, cfg, s));
    MovedIsStartable(body, cfg, s);
  }

  lemma {:induction false} VisitIsStartable(body: seq<Byte>, cfg: Config, n: nat)
    requires WellFormed(body) && Usable(cfg)
    ensures Visit(body, cfg, n).Some? ==> Startable(body, cfg, Visit(body, cfg, n).value)
  {
    if n > 0 {
      VisitIsStartable(body, cfg, n - 1);
      VisitNext(body, cfg, n - 1);
      hide Visit, Moved, WellFormed;
      var before := Visit(body, cfg, n - 1);
      if before.Some? && Moved(body, cfg, before.value).Some? {
        MovedIsStartable(body, cfg, before.value);
      }
    }
  }

  /** Once a chunk is no longer than the overlap, the loop is back at or before its start for ever. */
  lemma {:induction false} StuckForEver(body: seq<Byte>, cfg: Config, n: nat, k: nat)
    requires WellFormed(body) && Usable(cfg)
    requires Visit(body, cfg, n).Some? && Stuck(body, cfg, Visit(body, cfg, n).value)
    ensures Visit(body, cfg, n + k).Some? && Visit(body, cfg, n + k).value <= Visit(body, cfg, n).value
  {
    hide Visit, Moved, Stuck, WellFormed;
    if k > 0 {
      StuckForEver(body, cfg, n, k - 1);
      VisitIsStartable(body, cfg, n);
      var m := n + (k - 1);
      StuckMoves(body, cfg, Visit(body, cfg, n).value, Visit(body, cfg, m).value);
      VisitNext(body, cfg, m);
      assert m + 1 == n + k;
    }
  }

  lemma {:induction false} NoneStays(body: seq<Byte>, cfg: Config, n: nat, k: nat)
    requires Visit(body, cfg, n).None?
    ensures Visit(body, cfg, n + k).None?
  {
    hide Visit;
    if k > 0 {
      NoneStays(body, cfg, n, k - 1);
      VisitNext(body, cfg, n + (k - 1));
      assert n + (k - 1) + 1 == n + k;
    }
  }

  /** A stuck iteration anywhere means the loop never ends. */
  lemma StuckNeverEnds(body: seq<Byte>, cfg: Config, n: nat)
    requires WellFormed(body) && Usable(cfg)
    requires Visit(body, cfg, n).Some? && Stuck(body, cfg, Visit(body, cfg, n).value)
    ensures !Terminates(body, cfg)
  {
    hide Visit, Stuck, WellFormed;
    forall m: nat ensures Visit(body, cfg, m).Some? {
      if m >= n {
        StuckForEver(body, cfg, n, m - n);
      } else if Visit(body, cfg, m).None? {
        NoneStays(body, cfg, m, n - m);
      }
    }
  }

  lemma {:induction false} ProgressEnds(body: seq<Byte>, cfg: Config, n: nat)
    requires Visit(body, cfg, n).Some? && Progresses(body, cfg, Visit(body, cfg, n).value)
    ensures Terminates(body, cfg)
    decreases |body| - Visit(body, cfg, n).value
  {
    hide Visit, End, NextStart;
    VisitNext(body, cfg, n);
    if Visit(body, cfg, n + 1).Some? {
      ProgressEnds(body, cfg, n + 1);
    }
  }

  lemma {:induction false} EndingProgresses(body: seq<Byte>, cfg: Config, n: nat)
    requires WellFormed(body) && Usable(cfg) && Visit(body, cfg, n).Some? && Terminates(body, cfg)
    ensures Progresses(body, cfg, Visit(body, cfg, n).value)
    decreases |body| - Visit(body, cfg, n).value
  {
    var s := Visit(body, cfg, n).value;
    hide Visit, End, NextStart, WellFormed, Terminates;
    VisitIsStartable(body, cfg, n);
    VisitNext(body, cfg, n);
    if Visit(body, cfg, n + 1).Some? {
      MovedIsStartable(body, cfg, s);
      if Stuck(body, cfg, s) {
        StuckNeverEnds(body, cfg, n);
      } else {
        EndingProgresses(body, cfg, n + 1);
      }
    }
  }

  /** The loop ends exactly on the bodies where every chunk but the last is longer than the overlap. */
  lemma TerminatesIff(body: seq<Byte>, cfg: Config)
    requires WellFormed(body) && Usable(cfg) && body != []
    ensures Terminates(body, cfg) <==> Progresses(body, cfg, 0)
  {
    assert Visit(body, cfg, 0) == Some(0);
    hide Progresses, Terminates;
    if Terminates(body, cfg) {
      EndingProgresses(body, cfg, 0);
    } else if Progresses(body, cfg, 0) {
      ProgressEnds(body, cfg, 0);
    }
  }

  // ------------------------------------------------------------- the chunks

  datatype Chunk = Chunk(start: nat, end: nat, tokens: nat)

  /** Characters that begin in `body[lo..hi]`. */
  function CharCount(body: seq<Byte>, lo: nat, hi: nat): nat
    requires hi <= |body|
    decreases hi
  {
    if lo >= hi then 0 else CharCount(body, lo, hi - 1) + if IsContinuation(body[hi - 1]) then 0 else 1
  }

  lemma {:induction false} CharCountSplit(body: seq<Byte>, lo: nat, mid: nat, hi: nat)
    requires lo <= mid <= hi <= |body|
    ensures CharCount(body, lo, hi) == CharCount(body, lo, mid) + CharCount(body, mid, hi)
    decreases hi
  {
    if mid < hi {
      CharCountSplit(body, lo, mid, hi - 1);
    }
  }

  lemma {:induction false} CharCountInside(a: seq<Byte>, b: seq<Byte>, c: seq<Byte>, n: nat)
    requires n <= |b|
    ensures CharCount(a + b + c, |a|, |a| + n) == CharCount(b, 0, n)
  {
    if n > 0 {
      CharCountInside(a, b, c, n - 1);
    }
  }

  lemma {:induction false} CharCountOfText(s: string)
    ensures CharCount(Encode(s), 0, |Encode(s)|) == |s|
  {
    if s != "" {
      var e, rest := EncodeChar(s[0]), Encode(s[1..]);
      CharCountOfText(s[1..]);
      CharCountSplit(e + rest, 0, |e|, |e + rest|);
      CharCountInside([], e, rest, |e|);
      CharCountInside(e, rest, [], |rest|);
      assert [] + e + rest == e + rest && e + rest + [] == e + rest;
      assert CharCount(e, 0, |e|) == 1 by {
        CharCountOfOne(s[0]);
      }
    }
  }

  lemma CharCountOfOne(c: char)
    ensures CharCount(EncodeChar(c), 0, |EncodeChar(c)|) == 1
  {
    var e := EncodeChar(c);
    assert CharCount(e, 0, 1) == 1;
    assert |e| >= 2 ==> CharCount(e, 0, 2) == CharCount(e, 0, 1);
    assert |e| >= 3 ==> CharCount(e, 0, 3) == CharCount(e, 0, 2);
  }

  /** The bytes of a text hold as many characters as the text, wherever it stands. */
  lemma CharCountIsLength(a: string, b: string, c: string)
    ensures |Encode(a)| <= |Encode(a + b)| <= |Encode(a + b + c)|
    ensures CharCount(Encode(a + b + c), |Encode(a)|, |Encode(a + b)|) == |b|
  {
    hide Encode, CharCount;
    EncodeConcat(a, b);
    EncodeConcat(a + b, c);
    CharCountInside(Encode(a), Encode(b), Encode(c), |Encode(b)|);
    CharCountOfText(b);
  }

  /** On character boundaries, at most `size` bytes, with two characters to the token. */
  predicate IsPiece(body: seq<Byte>, cfg: Config, c: Chunk) {
    && c.start <= c.end <= |body| && c.end <= c.start + cfg.size
    && IsBoundary(body, c.start) && IsBoundary(body, c.end)
    && c.tokens == CharCount(body, c.start, c.end) / 2
  }

  /** `d` begins after `c` does, inside `c` or right at its end, and repeats at most the overlap. */
  predicate Follows(cfg: Config, c: Chunk, d: Chunk) {
    c.start < d.start <= c.end <= d.start + cfg.overlap
  }

  predicate IsChain(body: seq<Byte>, cfg: Config, chunks: seq<Chunk>) {
    && (forall i | 0 <= i < |chunks| :: IsPiece(body, cfg, chunks[i]))
    && (forall i | 0 < i < |chunks| :: Follows(cfg, chunks[i - 1], chunks[i]))
    && (chunks != [] ==> chunks[0].start == 0)
  }

  /** `pattern` is nowhere in `body[lo..hi]`. */
  predicate Missing(body: seq<Byte>, lo: nat, hi: nat, pattern: seq<Byte>) {
    forall q | lo <= q && q + |pattern| <= hi :: !Occurs(body, q, pattern)
  }

  /** `end` is just past the last `pattern` of `body[lo..hi]`. */
  predicate JustPast(body: seq<Byte>, lo: nat, hi: nat, pattern: seq<Byte>, end: nat) {
    && lo + |pattern| <= end <= hi && Occurs(body, end - |pattern|, pattern)
    && Missing(body, end - |pattern| + 1, hi, pattern)
  }

  /** The last boundary no further than `size` bytes from `start`. */
  predicate IsLimit(body: seq<Byte>, cfg: Config, start: nat, limit: nat) {
    && limit <= |body| && limit <= start + cfg.size && IsBoundary(body, limit)
    && forall b | limit < b <= |body| && b <= start + cfg.size :: !IsBoundary(body, b)
  }

  /** A blank line if the window has one, else the end of a sentence, else a space, else the limit. */
  predicate BreaksWell(body: seq<Byte>, start: nat, limit: nat, end: nat) {
    var blank, sentence, space := [10, 10], [46, 32], [32];
    if !Missing(body, start, limit, blank) then JustPast(body, start, limit, blank, end)
    else if !Missing(body, start, limit, sentence) then JustPast(body, start, limit, sentence, end)
    else if !Missing(body, start, limit, space) then JustPast(body, start, limit, space, end)
    else end == limit
  }

  /** The chunk reaches the end of the body if its size lets it, and else ends at a good break. */
  ghost predicate EndsWell(body: seq<Byte>, cfg: Config, start: nat, end: nat) {
    if |body| <= start + cfg.size then end == |body|
    else exists limit :: IsLimit(body, cfg, start, limit) && BreaksWell(body, start, limit, end)
  }

  /** The first boundary at or after the overlap before `end`. */
  predicate RestartsAt(body: seq<Byte>, cfg: Config, end: nat, start: nat) {
    && start <= end <= start + cfg.overlap && IsBoundary(body, start)
    && forall b | 0 <= b < start && end <= b + cfg.overlap :: !IsBoundary(body, b)
  }

  ghost predicate CutsWell(body: seq<Byte>, cfg: Config, chunks: seq<Chunk>) {
    && (forall i | 0 <= i < |chunks| :: EndsWell(body, cfg, chunks[i].start, chunks[i].end))
    && (forall i | 0 < i < |chunks| :: RestartsAt(body, cfg, chunks[i - 1].end, chunks[i].start))
  }

  lemma BreakEndIsPast(body: seq<Byte>, lo: nat, hi: nat, pattern: seq<Byte>)
    requires hi <= |body| && pattern != []
    ensures match BreakEnd(body, lo, hi, pattern)
            case Some(e) => JustPast(body, lo, hi, pattern, e) && !Missing(body, lo, hi, pattern)
            case None => Missing(body, lo, hi, pattern)
  {
    LastBreakIs(body, lo, hi, pattern);
    hide Occurs;
  }

  lemma SplitPointBreaksWell(body: seq<Byte>, start: nat, limit: nat)
    requires limit <= |body|
    ensures BreaksWell(body, start, limit, SplitPoint(body, start, limit))
  {
    hide BreakEnd, JustPast, Missing;
    BreakEndIsPast(body, start, limit, PARAGRAPH);
    BreakEndIsPast(body, start, limit, SENTENCE);
    BreakEndIsPast(body, start, limit, WORD);
  }

  /** Every chunk ends where paragraphs, sentences and words say, in that order of preference. */
  lemma EndIsWell(body: seq<Byte>, cfg: Config, start: nat)
    ensures EndsWell(body, cfg, start, End(body, cfg, start))
  {
    var at := if start + cfg.size < |body| then start + cfg.size else |body|;
    var limit := Limit(body, cfg, start);
    forall b | limit < b <= |body| && b <= start + cfg.size ensures !IsBoundary(body, b) {
      if IsBoundary(body, b) {
        PrevBoundaryIsLast(body, at, b);
      }
    }
    assert IsLimit(body, cfg, start, limit);
    if |body| <= start + cfg.size {
      assert IsBoundary(body, |body|) && limit == |body|;
    } else {
      SplitPointBreaksWell(body, start, limit);
    }
  }

  lemma RestartIsFirst(body: seq<Byte>, cfg: Config, end: nat)
    requires WellFormed(body) && 0 < end < |body| && IsBoundary(body, end)
    ensures RestartsAt(body, cfg, end, NextStart(body, cfg, end))
  {
    NextStartBounds(body, cfg, end);
    var from := if end >= cfg.overlap then end - cfg.overlap else 0;
    forall b | 0 <= b < NextStart(body, cfg, end) && end <= b + cfg.overlap ensures !IsBoundary(body, b) {
      if IsBoundary(body, b) {
        NextBoundaryIsFirst(body, from, b);
      }
    }
  }

  lemma ChainGrows(body: seq<Byte>, cfg: Config, chunks: seq<Chunk>, c: Chunk)
    requires IsChain(body, cfg, chunks) && IsPiece(body, cfg, c)
    requires if chunks == [] then c.start == 0 else Follows(cfg, chunks[|chunks| - 1], c)
    ensures IsChain(body, cfg, chunks + [c])
  {
  }

  /** What the next chunk may rely on: it starts right, and the loop will end. */
  predicate Resumes(body: seq<Byte>, cfg: Config, chunks: seq<Chunk>, start: nat) {
    && Startable(body, cfg, start) && Progresses(body, cfg, start)
    && if chunks == [] then start == 0
       else chunks[|chunks| - 1].start < start && RestartsAt(body, cfg, chunks[|chunks| - 1].end, start)
  }

  lemma ResumesAfter(body: seq<Byte>, cfg: Config, chunks: seq<Chunk>, c: Chunk)
    requires WellFormed(body) && Usable(cfg) && Startable(body, cfg, c.start) && Progresses(body, cfg, c.start)
    requires c.end == End(body, cfg, c.start) < |body|
    ensures Resumes(body, cfg, chunks + [c], NextStart(body, cfg, c.end))
    ensures NextStart(body, cfg, c.end) > c.start
  {
    EndBounds(body, cfg, c.start);
    NextStartBounds(body, cfg, c.end);
    RestartIsFirst(body, cfg, c.end);
  }

  /** Cuts one chunk at `start`. */
  method CutChunk(body: seq<Byte>, cfg: Config, start: nat) returns (c: Chunk)
    requires WellFormed(body) && Usable(cfg) && Startable(body, cfg, start)
    ensures c.start == start && c.end == End(body, cfg, start) && IsPiece(body, cfg, c)
    ensures start < c.end && EndsWell(body, cfg, start, c.end)
  {
    EndIsWell(body, cfg, start);
    LimitIsPast(body, cfg, start);
    EndBounds(body, cfg, start);
    var limit := FindPrevBoundary(body, start + cfg.size);
    var end := if limit < |body| then SplitPoint(body, start, limit) else limit;
    return Chunk(start, end, CharCount(body, start, end) / 2);
  }

  /** One more chunk on the chain, cut where the loop stood. */
  lemma CutsGrow(body: seq<Byte>, cfg: Config, chunks: seq<Chunk>, c: Chunk)
    requires IsChain(body, cfg, chunks) && CutsWell(body, cfg, chunks) && Resumes(body, cfg, chunks, c.start)
    requires IsPiece(body, cfg, c) && EndsWell(body, cfg, c.start, c.end)
    ensures IsChain(body, cfg, chunks + [c]) && CutsWell(body, cfg, chunks + [c])
  {
    hide IsPiece, EndsWell, IsBoundary, Progresses;
    ChainGrows(body, cfg, chunks, c);
  }

  lemma ResumesAtStart(body: seq<Byte>, cfg: Config)
    requires body != [] && Progresses(body, cfg, 0)
    ensures IsChain(body, cfg, []) && CutsWell(body, cfg, []) && Resumes(body, cfg, [], 0)
  {
  }

  lemma WholeIsWell(body: seq<Byte>, cfg: Config, c: Chunk)
    requires |body| <= cfg.size && c == Chunk(0, |body|, CharCount(body, 0, |body|) / 2)
    ensures IsChain(body, cfg, [c]) && CutsWell(body, cfg, [c])
  {
  }

  /** `split_into_chunks`, on the bodies where it ends. */
  method SplitIntoChunks(body: seq<Byte>, cfg: Config) returns (chunks: seq<Chunk>)
    requires WellFormed(body) && Usable(cfg)
    requires |body| > cfg.size ==> Progresses(body, cfg, 0)
    ensures IsChain(body, cfg, chunks) && chunks != [] && chunks[|chunks| - 1].end == |body|
    ensures CutsWell(body, cfg, chunks)
    ensures |body| <= cfg.size ==> |chunks| == 1
  {
    hide WellFormed, IsPiece, EndsWell, IsChain, CutsWell, Progresses, End, NextStart, RestartsAt;
    if |body| <= cfg.size {
      var whole := Chunk(0, |body|, CharCount(body, 0, |body|) / 2);
      WholeIsWell(body, cfg, whole);
      return [whole];
    }
    chunks := [];
    var start := 0;
    ResumesAtStart(body, cfg);
    while true
      invariant IsChain(body, cfg, chunks) && CutsWell(body, cfg, chunks)
      invariant Resumes(body, cfg, chunks, start)
      decreases |body| - start
    {
      var c := CutChunk(body, cfg, start);
      CutsGrow(body, cfg, chunks, c);
      if c.end >= |body| {
        EndBounds(body, cfg, start);
        return chunks + [c];
      }
      ResumesAfter(body, cfg, chunks, c);
      chunks := chunks + [c];
      start := NextStart(body, cfg, c.end);
    }
  }

  /** A chain that reaches the end of the body leaves no byte out. */
  lemma {:induction false} EveryByteIsCovered(body: seq<Byte>, cfg: Config, chunks: seq<Chunk>, b: nat)
    requires IsChain(body, cfg, chunks) && chunks != [] && b < chunks[|chunks| - 1].end
    ensures exists i | 0 <= i < |chunks| :: chunks[i].start <= b < chunks[i].end
  {
    var last := chunks[|chunks| - 1];
    if last.start > b {
      var rest := chunks[..|chunks| - 1];
      EveryByteIsCovered(body, cfg, rest, b);
      var i :| 0 <= i < |rest| && rest[i].start <= b < rest[i].end;
      assert chunks[i] == rest[i];
    }
  }

  // --------------------------------------------------------- where it does not

  /** A first break within the overlap sends start 0 back to 0, for ever. */
  lemma {:induction false} EarlyBreakRepeats(body: seq<Byte>, cfg: Config, n: nat)
    requires body != [] && End(body, cfg, 0) < |body| && End(body, cfg, 0) <= cfg.overlap
    ensures Visit(body, cfg, n) == Some(0)
  {
    if n > 0 {
      EarlyBreakRepeats(body, cfg, n - 1);
      var e := End(body, cfg, 0);
      assert NextBoundary(body, 0) == 0;
      assert NextStart(body, cfg, e) == 0;
    }
  }

  predicate Unbroken(s: seq<Byte>) {
    forall i | 0 <= i < |s| :: 32 < s[i] < 127 && s[i] != 46
  }

  /** The only byte of a break pattern is the space between the words. */
  lemma OnlyTheSpace(head: seq<Byte>, tail: seq<Byte>, p: int)
    requires Unbroken(head) && Unbroken(tail)
    ensures var body := head + [32] + tail;
            && !Occurs(body, p, PARAGRAPH) && !Occurs(body, p, SENTENCE)
            && (Occurs(body, p, WORD) <==> p == |head|)
  {
    var body := head + [32] + tail;
    if 0 <= p < |body| {
      assert body[p] == if p < |head| then head[p] else if p == |head| then 32 else tail[p - |head| - 1];
      assert PARAGRAPH[0] == 10 && SENTENCE[0] == 46 && WORD[0] == 32 && body[p + 0] == body[p];
    }
  }

  lemma OneBreak(head: seq<Byte>, tail: seq<Byte>, hi: nat)
    requires Unbroken(head) && Unbroken(tail) && |head| < hi <= |head| + 1 + |tail|
    ensures var body := head + [32] + tail;
            BreakEnd(body, 0, hi, PARAGRAPH).None? && BreakEnd(body, 0, hi, SENTENCE).None?
            && BreakEnd(body, 0, hi, WORD) == Some(|head| + 1)
  {
    var body := head + [32] + tail;
    LastBreakIs(body, 0, hi, PARAGRAPH);
    LastBreakIs(body, 0, hi, SENTENCE);
    LastBreakIs(body, 0, hi, WORD);
    hide LastBreak, Occurs;
    forall p: int
      ensures !Occurs(body, p, PARAGRAPH) && !Occurs(body, p, SENTENCE) && (Occurs(body, p, WORD) <==> p == |head|)
    {
      OnlyTheSpace(head, tail, p);
    }
    assert Occurs(body, |head|, WORD);
  }

  /** A short word, a space and a long word: the loop never ends, whatever the words. */
  lemma ShortWordThenLongWordLoops(head: seq<Byte>, tail: seq<Byte>, cfg: Config)
    requires Usable(cfg) && Unbroken(head) && Unbroken(tail) && |head| + 1 <= cfg.overlap && cfg.size <= |tail|
    ensures WellFormed(head + [32] + tail) && !Terminates(head + [32] + tail, cfg)
  {
    var body := head + [32] + tail;
    assert forall i | 0 <= i < |body| :: body[i] < 0x80;
    assert WellFormed(body);
    LimitIsPast(body, cfg, 0);
    var limit := Limit(body, cfg, 0);
    OneBreak(head, tail, limit);
    hide BreakEnd, WellFormed;
    forall n: nat ensures Visit(body, cfg, n) == Some(0) {
      EarlyBreakRepeats(body, cfg, n);
    }
  }
}
