/** Text primitives: dotted paths, substring search, trimming. */
module Texts {
  import opened Wrappers

  /** The Unicode White_Space property. */
  predicate IsWhitespace(c: char) {
    var n := c as int;
    0x09 <= n <= 0x0D || n == 0x20 || n == 0x85 || n == 0xA0 || n == 0x1680 || 0x2000 <= n <= 0x200A
    || n == 0x2028 || n == 0x2029 || n == 0x202F || n == 0x205F || n == 0x3000
  }

  function TrimStart(s: string): string {
    if s != "" && IsWhitespace(s[0]) then TrimStart(s[1..]) else s
  }

  function TrimEnd(s: string): string {
    if s != "" && IsWhitespace(s[|s| - 1]) then TrimEnd(s[..|s| - 1]) else s
  }

  function Trim(s: string): string {
    TrimEnd(TrimStart(s))
  }

  lemma {:induction false} TrimShrinks(s: string)
    ensures |Trim(s)| <= |s|
    ensures Trim(s) == s <==> s == "" || (!IsWhitespace(s[0]) && !IsWhitespace(s[|s| - 1]))
  {
    TrimStartShrinks(s);
    TrimEndShrinks(TrimStart(s));
  }

  lemma {:induction false} TrimStartShrinks(s: string)
    ensures |TrimStart(s)| <= |s|
    ensures |TrimStart(s)| == |s| <==> s == "" || !IsWhitespace(s[0])
  {
    if s != "" && IsWhitespace(s[0]) {
      TrimStartShrinks(s[1..]);
    }
  }

  lemma {:induction false} TrimEndShrinks(s: string)
    ensures |TrimEnd(s)| <= |s|
    ensures |TrimEnd(s)| == |s| <==> s == "" || !IsWhitespace(s[|s| - 1])
  {
    if s != "" && IsWhitespace(s[|s| - 1]) {
      TrimEndShrinks(s[..|s| - 1]);
    }
  }

  predicate Blank(s: string) {
    forall i | 0 <= i < |s| :: IsWhitespace(s[i])
  }

  lemma {:induction false} TrimStartIs(s: string) returns (i: nat)
    ensures i <= |s| && Blank(s[..i]) && TrimStart(s) == s[i..]
    ensures i < |s| ==> !IsWhitespace(s[i])
  {
    i := 0;
    if s != "" && IsWhitespace(s[0]) {
      i := TrimStartIs(s[1..]);
      i := i + 1;
      assert s[..i] == [s[0]] + s[1..][..i - 1];
    }
  }

  lemma {:induction false} TrimEndIs(s: string) returns (j: nat)
    ensures j <= |s| && Blank(s[j..]) && TrimEnd(s) == s[..j]
    ensures j > 0 ==> !IsWhitespace(s[j - 1])
  {
    j := |s|;
    if s != "" && IsWhitespace(s[|s| - 1]) {
      j := TrimEndIs(s[..|s| - 1]);
      assert s[j..] == s[..|s| - 1][j..] + [s[|s| - 1]];
      assert s[..|s| - 1][..j] == s[..j];
    }
  }

  /** Trimming takes whitespace from both ends, all of it, and nothing else. */
  lemma TrimIs(s: string) returns (i: nat, j: nat)
    ensures i <= j <= |s| && Trim(s) == s[i..j] && Blank(s[..i]) && Blank(s[j..])
    ensures i < j ==> !IsWhitespace(s[i]) && !IsWhitespace(s[j - 1])
  {
    i := TrimStartIs(s);
    j := TrimEndIs(s[i..]);
    j := j + i;
    assert s[i..][..j - i] == s[i..j] && s[i..][j - i..] == s[j..];
  }

  // ---------------------------------------------------------------- search

  predicate StartsAt(s: string, i: nat, token: string) {
    i + |token| <= |s| && s[i..i + |token|] == token
  }

  /** First position at or after `from` where `token` occurs. */
  function FindFrom(s: string, from: nat, token: string): (r: Option<nat>)
    requires from <= |s|
    ensures r.Some? ==> from <= r.value && StartsAt(s, r.value, token)
    ensures r.Some? ==> forall j | from <= j < r.value :: !StartsAt(s, j, token)
    ensures r.None? ==> forall j | from <= j <= |s| :: !StartsAt(s, j, token)
    decreases |s| - from
  {
    if StartsAt(s, from, token) then Some(from)
    else if from == |s| then None
    else FindFrom(s, from + 1, token)
  }

  lemma FindsIff(s: string, token: string)
    ensures FindFrom(s, 0, token).Some? <==> exists p: nat :: StartsAt(s, p, token)
  {
    forall p: nat | StartsAt(s, p, token) ensures p <= |s| {
    }
  }

  // ----------------------------------------------------------------- paths

  /** `str::split('.')`: never empty, the empty text is one empty segment. */
  function Split(s: string): (path: seq<string>)
    ensures path != []
  {
    if s == "" then [""]
    else
      var rest := Split(s[1..]);
      if s[0] == '.' then [""] + rest else [[s[0]] + rest[0]] + rest[1..]
  }

  function Join(path: seq<string>): string {
    if path == [] then ""
    else if |path| == 1 then path[0]
    else path[0] + "." + Join(path[1..])
  }

  predicate Dotless(s: string) {
    '.' !in s
  }

  /** A key survives being split and joined, whatever it contains. */
  lemma {:induction false} JoinSplit(s: string)
    ensures Join(Split(s)) == s
  {
    if s != "" {
      JoinSplit(s[1..]);
      var rest := Split(s[1..]);
      if s[0] == '.' {
        assert ([""] + rest)[1..] == rest;
      } else {
        var path := [[s[0]] + rest[0]] + rest[1..];
        assert path[1..] == rest[1..];
      }
    }
  }

  lemma {:induction false} SplitDotless(s: string)
    requires Dotless(s)
    ensures Split(s) == [s]
  {
    if s != "" {
      SplitDotless(s[1..]);
      assert s == [s[0]] + s[1..];
    }
  }

  lemma {:induction false} SplitSegmentsDotless(s: string)
    ensures forall i | 0 <= i < |Split(s)| :: Dotless(Split(s)[i])
  {
    if s != "" {
      SplitSegmentsDotless(s[1..]);
    }
  }

  lemma {:induction false} SplitConcat(a: string, b: string)
    ensures Split(a + "." + b) == Split(a) + Split(b)
  {
    var whole := a + "." + b;
    if a == "" {
      assert whole[1..] == b;
    } else {
      assert whole[1..] == a[1..] + "." + b;
      SplitConcat(a[1..], b);
    }
  }

  /** A path survives being joined and split when no segment hides a separator. */
  lemma {:induction false} SplitJoin(path: seq<string>)
    requires path != []
    requires forall i | 0 <= i < |path| :: Dotless(path[i])
    ensures Split(Join(path)) == path
  {
    SplitDotless(path[0]);
    if |path| > 1 {
      SplitJoin(path[1..]);
      SplitConcat(path[0], Join(path[1..]));
    }
  }
}
