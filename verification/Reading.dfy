/** JSON text read back: what the writer's orders, digits and escapes mean. */
module Reading {
  import opened Json

  /** The order is that of the first difference, and a proper prefix comes first. */
  lemma {:induction false} TextLessIff(a: string, b: string)
    ensures TextLess(a, b) <==>
            exists n: nat :: n <= |a| && n < |b| && a[..n] == b[..n] && (n == |a| || a[n] < b[n])
  {
    if a != "" && b != "" && a[0] == b[0] {
      TextLessIff(a[1..], b[1..]);
      if TextLess(a, b) {
        var n: nat :| n <= |a[1..]| && n < |b[1..]| && a[1..][..n] == b[1..][..n] && (n == |a[1..]| || a[1..][n] < b[1..][n]);
        assert a[..n + 1] == [a[0]] + a[1..][..n] && b[..n + 1] == [b[0]] + b[1..][..n];
        assert n + 1 <= |a| && n + 1 < |b| && a[..n + 1] == b[..n + 1] && (n + 1 == |a| || a[n + 1] < b[n + 1]);
      }
      if n: nat :| n <= |a| && n < |b| && a[..n] == b[..n] && (n == |a| || a[n] < b[n]) {
        assert n > 0 && a[1..][..n - 1] == a[..n][1..] && b[1..][..n - 1] == b[..n][1..];
        var m := n - 1;
        assert m <= |a[1..]| && m < |b[1..]| && a[1..][..m] == b[1..][..m] && (m == |a[1..]| || a[1..][m] < b[1..][m]);
      }
    } else {
      if TextLess(a, b) {
        assert a[..0] == b[..0];
      }
      forall n: nat | 0 < n <= |a| && n < |b| ensures a[..n] != b[..n] {
        assert a[..n][0] == a[0] && b[..n][0] == b[0];
      }
    }
  }

  // ------------------------------------------------------------ reading back

  /** The number a row of digits stands for. */
  function Numeral(s: string): int {
    if s == "" then 0 else 10 * Numeral(s[..|s| - 1]) + (s[|s| - 1] as int - '0' as int)
  }

  lemma {:induction false} DigitsRead(n: nat)
    ensures Numeral(Digits(n)) == n
    ensures Digits(n) != "" && (n > 0 ==> Digits(n)[0] != '0')
    ensures forall i | 0 <= i < |Digits(n)| :: '0' <= Digits(n)[i] <= '9'
  {
    assert forall d: nat | d < 10 :: DigitChar(d) as int == '0' as int + d;
    if n < 10 {
      assert Digits(n)[..0] == "" && Numeral("") == 0;
    } else {
      DigitsRead(n / 10);
      assert Digits(n)[..|Digits(n)| - 1] == Digits(n / 10);
    }
  }

  function HexValue(c: char): int {
    if c <= '9' then c as int - '0' as int else c as int - 'a' as int + 10
  }

  /** The character an escape stands for, and how long the escape is. */
  function Unescaped(s: string): (char, nat)
    requires s != ""
  {
    if s[0] != '\\' || |s| == 1 then (s[0], 1)
    else if s[1] == 'b' then ('\U{0008}', 2)
    else if s[1] == 'f' then ('\U{000C}', 2)
    else if s[1] == 'n' then ('\n', 2)
    else if s[1] == 'r' then ('\r', 2)
    else if s[1] == 't' then ('\t', 2)
    else if s[1] == 'u' && |s| >= 6 then
      var code := HexValue(s[4]) * 16 + HexValue(s[5]);
      (if 0 <= code < 0x80 then code as char else '?', 6)
    else (s[1], 2)
  }

  /** What a string's text says, escapes undone (section 7 of RFC 8259). */
  function Unescape(s: string): string {
    if s == "" then "" else
      var (c, n) := Unescaped(s);
      [c] + if n <= |s| then Unescape(s[n..]) else ""
  }

  lemma UnescapedOne(c: char, rest: string)
    ensures EscapeChar(c) != "" && Unescaped(EscapeChar(c) + rest) == (c, |EscapeChar(c)|)
  {
    var e := EscapeChar(c);
    var s := e + rest;
    if c < ' ' && |e| == 6 {
      var n := c as int;
      assert s[4] == HexDigit(n / 16) && s[5] == HexDigit(n % 16);
      HexRead(n / 16);
      HexRead(n % 16);
    }
  }

  lemma HexRead(d: nat)
    requires d < 16
    ensures HexValue(HexDigit(d)) == d
  {
  }

  /** Escaping loses nothing. */
  lemma {:induction false} UnescapeEscape(s: string)
    ensures Unescape(Escape(s)) == s
  {
    if s != "" {
      var e, rest := EscapeChar(s[0]), Escape(s[1..]);
      UnescapedOne(s[0], rest);
      UnescapeEscape(s[1..]);
      assert (e + rest)[|e|..] == rest;
    }
  }

  /** Not a control character, and not a quote that is not escaped. */
  predicate CleanAt(s: string, i: nat)
    requires i < |s|
  {
    s[i] >= ' ' && (s[i] == '\"' ==> i > 0 && s[i - 1] == '\\')
  }

  predicate Clean(s: string) {
    forall i | 0 <= i < |s| :: CleanAt(s, i)
  }

  lemma CleanOne(c: char)
    ensures Clean(EscapeChar(c))
  {
  }

  lemma CleanConcat(a: string, b: string)
    requires Clean(a) && Clean(b)
    ensures Clean(a + b)
  {
    var s := a + b;
    forall i | 0 <= i < |s| ensures CleanAt(s, i) {
      if i < |a| {
        assert CleanAt(a, i);
      } else {
        assert CleanAt(b, i - |a|);
      }
    }
  }

  lemma {:induction false} EscapeIsClean(s: string)
    ensures Clean(Escape(s))
  {
    hide EscapeChar;
    if s != "" {
      CleanOne(s[0]);
      EscapeIsClean(s[1..]);
      CleanConcat(EscapeChar(s[0]), Escape(s[1..]));
    }
  }
}
