/** UTF-8 text as bytes (section 3 of RFC 3629), and where its characters begin. */
module Utf8 {
  import Json

  type Byte = x: int | 0 <= x < 0x100

  function EncodeChar(c: char): (r: seq<Byte>)
    ensures |r| == Json.Utf8Len(c)
  {
    var n := c as int;
    if n < 0x80 then [n]
    else if n < 0x800 then [0xC0 + n / 64, 0x80 + n % 64]
    else if n < 0x10000 then [0xE0 + n / 4096, 0x80 + n / 64 % 64, 0x80 + n % 64]
    else [0xF0 + n / 262144, 0x80 + n / 4096 % 64, 0x80 + n / 64 % 64, 0x80 + n % 64]
  }

  /** The bytes of a string: every valid UTF-8 text is one of these. */
  function Encode(s: string): seq<Byte> {
    if s == "" then [] else EncodeChar(s[0]) + Encode(s[1..])
  }

  predicate IsContinuation(b: Byte) {
    0x80 <= b < 0xC0
  }

  /** `str::is_char_boundary` for an index of the text. */
  predicate IsBoundary(body: seq<Byte>, i: nat) {
    i == 0 || i == |body| || (i < |body| && !IsContinuation(body[i]))
  }

  /** What the splitters rely on: characters have at most four bytes, the first is no
      continuation, and an ASCII byte is a character of its own. */
  ghost predicate WellFormed(body: seq<Byte>) {
    && (body != [] ==> !IsContinuation(body[0]))
    && (forall i: nat | i + 1 < |body| :: !StrayContinuation(body, i))
    && (forall i: nat | i + 3 < |body| :: !FourContinuations(body, i))
  }

  /** A continuation right after an ASCII byte. */
  predicate StrayContinuation(body: seq<Byte>, i: nat)
    requires i + 1 < |body|
  {
    body[i] < 0x80 && IsContinuation(body[i + 1])
  }

  predicate FourContinuations(body: seq<Byte>, i: nat)
    requires i + 3 < |body|
  {
    IsContinuation(body[i]) && IsContinuation(body[i + 1]) && IsContinuation(body[i + 2]) && IsContinuation(body[i + 3])
  }

  predicate IsCharacter(e: seq<Byte>) {
    && 1 <= |e| <= 4 && !IsContinuation(e[0]) && (forall i | 1 <= i < |e| :: IsContinuation(e[i]))
    && (e[0] < 0x80 ==> |e| == 1)
  }

  lemma NoFourAcross(e: seq<Byte>, rest: seq<Byte>, i: nat)
    requires IsCharacter(e) && WellFormed(rest) && i + 3 < |e + rest|
    ensures !FourContinuations(e + rest, i)
  {
    var body := e + rest;
    if i >= |e| {
      assert FourContinuations(rest, i - |e|) == FourContinuations(body, i);
    } else if i > 0 {
      assert body[|e|] == rest[0] && i < |e| <= i + 3;
    }
  }

  lemma PrependChar(e: seq<Byte>, rest: seq<Byte>)
    requires IsCharacter(e) && WellFormed(rest)
    ensures WellFormed(e + rest)
  {
    var body := e + rest;
    forall i: nat | i + 1 < |body| ensures !StrayContinuation(body, i) {
      if i >= |e| {
        assert StrayContinuation(rest, i - |e|) == StrayContinuation(body, i);
      } else if i + 1 == |e| {
        assert body[i + 1] == rest[0];
      }
    }
    forall i: nat | i + 3 < |body| ensures !FourContinuations(body, i) {
      NoFourAcross(e, rest, i);
    }
  }

  /** Every encoded string is well formed. */
  lemma {:induction false} EncodeIsWellFormed(s: string)
    ensures WellFormed(Encode(s))
  {
    if s != "" {
      EncodeIsWellFormed(s[1..]);
      assert IsCharacter(EncodeChar(s[0]));
      PrependChar(EncodeChar(s[0]), Encode(s[1..]));
    }
  }

  lemma {:induction false} EncodeLength(s: string)
    ensures |Encode(s)| == Json.ByteLen(s)
  {
    if s != "" {
      EncodeLength(s[1..]);
    }
  }

  /** The character a row of bytes encodes (the bit patterns of section 3 of RFC 3629). */
  function Decoded(e: seq<int>): int {
    if |e| == 1 then e[0]
    else if |e| == 2 then (e[0] - 0xC0) * 64 + (e[1] - 0x80)
    else if |e| == 3 then (e[0] - 0xE0) * 4096 + (e[1] - 0x80) * 64 + (e[2] - 0x80)
    else if |e| == 4 then (e[0] - 0xF0) * 262144 + (e[1] - 0x80) * 4096 + (e[2] - 0x80) * 64 + (e[3] - 0x80)
    else 0
  }

  /** No two characters have the same bytes. */
  lemma DecodedIs(c: char)
    ensures Decoded(EncodeChar(c)) == c as int
  {
    var n := c as int;
    assert n == n / 64 * 64 + n % 64;
    assert n / 64 == n / 4096 * 64 + n / 64 % 64;
    assert n / 4096 == n / 262144 * 64 + n / 4096 % 64;
  }

  lemma {:induction false} EncodeConcat(a: string, b: string)
    ensures Encode(a + b) == Encode(a) + Encode(b)
  {
    if a == "" {
      assert a + b == b;
    } else {
      assert (a + b)[1..] == a[1..] + b;
      EncodeConcat(a[1..], b);
    }
  }

  /** The bytes between the offsets of two characters are the bytes of the text between them. */
  lemma EncodeSlice(s: string, i: nat, j: nat)
    requires i <= j <= |s|
    ensures Json.ByteLen(s[..i]) <= Json.ByteLen(s[..j]) <= |Encode(s)|
    ensures Encode(s)[Json.ByteLen(s[..i])..Json.ByteLen(s[..j])] == Encode(s[i..j])
  {
    hide Encode, Json.ByteLen;
    var a, b, c := s[..i], s[i..j], s[j..];
    assert s[..j] == a + b && s == a + b + c;
    EncodeConcat(a, b);
    EncodeConcat(a + b, c);
    EncodeLength(a);
    EncodeLength(a + b);
  }

  // -------------------------------------------------------------- boundaries

  /** The last boundary at or before `i`. */
  function PrevBoundary(body: seq<Byte>, i: nat): (r: nat)
    ensures r <= i && (i <= |body| ==> IsBoundary(body, r))
  {
    if i == 0 || i > |body| || IsBoundary(body, i) then i else PrevBoundary(body, i - 1)
  }

  /** The first boundary at or after `i`. */
  function NextBoundary(body: seq<Byte>, i: nat): (r: nat)
    requires i <= |body|
    ensures i <= r <= |body| && IsBoundary(body, r)
    decreases |body| - i
  {
    if i == |body| || IsBoundary(body, i) then i else NextBoundary(body, i + 1)
  }

  lemma {:induction false} PrevBoundaryIsLast(body: seq<Byte>, i: nat, b: nat)
    requires i <= |body| && b <= i && IsBoundary(body, b)
    ensures b <= PrevBoundary(body, i)
  {
    if !(i == 0 || IsBoundary(body, i)) {
      PrevBoundaryIsLast(body, i - 1, b);
    }
  }

  lemma {:induction false} NextBoundaryIsFirst(body: seq<Byte>, i: nat, b: nat)
    requires i <= b <= |body| && IsBoundary(body, b)
    ensures NextBoundary(body, i) <= b
    decreases |body| - i
  {
    if !(i == |body| || IsBoundary(body, i)) {
      NextBoundaryIsFirst(body, i + 1, b);
    }
  }

  lemma NextBoundaryMonotone(body: seq<Byte>, i: nat, j: nat)
    requires i <= j <= |body|
    ensures NextBoundary(body, i) <= NextBoundary(body, j)
  {
    NextBoundaryIsFirst(body, i, NextBoundary(body, j));
  }

  /** A character is never longer than four bytes, so a boundary is never further back than three. */
  lemma PrevBoundaryIsNear(body: seq<Byte>, i: nat)
    requires WellFormed(body) && i <= |body|
    ensures i <= PrevBoundary(body, i) + 3
  {
    if i < |body| && i >= 4 {
      var k := i - 3;
      assert !FourContinuations(body, k);
      var b := if !IsContinuation(body[k + 3]) then k + 3 else if !IsContinuation(body[k + 2]) then k + 2
               else if !IsContinuation(body[k + 1]) then k + 1 else k;
      PrevBoundaryIsLast(body, i, b);
    } else if i < |body| {
      PrevBoundaryIsLast(body, i, 0);
    } else {
      PrevBoundaryIsLast(body, i, i);
    }
  }

  /** Past an ASCII byte a new character begins. */
  lemma AfterAscii(body: seq<Byte>, i: nat)
    requires WellFormed(body) && i < |body| && body[i] < 0x80
    ensures IsBoundary(body, i + 1)
  {
    assert i + 1 < |body| ==> !StrayContinuation(body, i);
  }

  /** `previous_char_boundary`. */
  method FindPrevBoundary(body: seq<Byte>, at: nat) returns (i: nat)
    ensures i == PrevBoundary(body, if at < |body| then at else |body|)
  {
    i := if at < |body| then at else |body|;
    while i > 0 && !IsBoundary(body, i)
      invariant i <= |body|
      invariant PrevBoundary(body, i) == PrevBoundary(body, if at < |body| then at else |body|)
    {
      i := i - 1;
    }
  }

  /** `next_char_boundary`. */
  method FindNextBoundary(body: seq<Byte>, at: nat) returns (i: nat)
    ensures i == NextBoundary(body, if at < |body| then at else |body|)
  {
    i := if at < |body| then at else |body|;
    while i < |body| && !IsBoundary(body, i)
      invariant i <= |body|
      invariant NextBoundary(body, i) == NextBoundary(body, if at < |body| then at else |body|)
    {
      i := i + 1;
    }
  }
}
