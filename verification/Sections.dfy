/** Splitting a large body into partitions at Markdown headers, without losing a byte. */
module Sections {
  import opened Utf8

  type Text = seq<Byte>

  const NEWLINE: Byte := 10

  function Flatten<T>(parts: seq<seq<T>>): seq<T> {
    if parts == [] then [] else parts[0] + Flatten(parts[1..])
  }

  lemma {:induction false} FlattenConcat<T>(a: seq<seq<T>>, b: seq<seq<T>>)
    ensures Flatten(a + b) == Flatten(a) + Flatten(b)
  {
    if a == [] {
      assert a + b == b;
    } else {
      assert (a + b)[1..] == a[1..] + b;
      FlattenConcat(a[1..], b);
    }
  }

  lemma FlattenOne<T>(part: seq<T>)
    ensures Flatten([part]) == part
  {
  }

  lemma FlattenAppend<T>(parts: seq<seq<T>>, part: seq<T>)
    ensures Flatten(parts + [part]) == Flatten(parts) + part
  {
    FlattenConcat(parts, [part]);
    FlattenOne(part);
  }

  // ------------------------------------------------------------------ lines

  /** Bytes of the first line, its newline included. */
  function FirstLineLength(body: Text): (n: nat)
    requires body != []
    ensures 1 <= n <= |body|
    ensures n < |body| ==> body[n - 1] == NEWLINE
  {
    if body[0] == NEWLINE || |body| == 1 then 1 else 1 + FirstLineLength(body[1..])
  }

  /** A line has a newline nowhere but at its end. */
  lemma {:induction false} FirstLineHasNoNewline(body: Text)
    requires body != []
    ensures forall i | 0 <= i < FirstLineLength(body) - 1 :: body[i] != NEWLINE
  {
    if body[0] != NEWLINE && |body| > 1 {
      FirstLineHasNoNewline(body[1..]);
    }
  }

  /** `split_inclusive('\n')`. */
  function Lines(body: Text): seq<Text>
    decreases |body|
  {
    if body == [] then []
    else
      var n := FirstLineLength(body);
      [body[..n]] + Lines(body[n..])
  }

  lemma {:induction false} LinesFlatten(body: Text)
    ensures Flatten(Lines(body)) == body
    ensures forall i | 0 <= i < |Lines(body)| :: Lines(body)[i] != []
    decreases |body|
  {
    if body != [] {
      var n := FirstLineLength(body);
      LinesFlatten(body[n..]);
      assert body == body[..n] + body[n..];
    }
  }

  /** No newline but perhaps at the end. */
  predicate Unbroken(line: Text) {
    line != [] && forall i | 0 <= i < |line| - 1 :: line[i] != NEWLINE
  }

  /** Lines end at newlines and nowhere else, and only the last may lack one. */
  lemma {:induction false} LinesEndAtNewlines(body: Text)
    ensures forall k | 0 <= k < |Lines(body)| :: Unbroken(Lines(body)[k])
    ensures forall k | 0 <= k < |Lines(body)| - 1 :: EndsLine(Lines(body)[k])
    decreases |body|
  {
    if body != [] {
      var n := FirstLineLength(body);
      var rest := Lines(body[n..]);
      FirstLineHasNoNewline(body);
      assert Unbroken(body[..n]);
      assert rest != [] ==> n < |body| && EndsLine(body[..n]);
      LinesEndAtNewlines(body[n..]);
      hide Unbroken, EndsLine, FirstLineLength;
      forall k | 0 <= k < |Lines(body)| ensures Unbroken(Lines(body)[k]) && (k < |Lines(body)| - 1 ==> EndsLine(Lines(body)[k])) {
        assert Lines(body)[k] == if k == 0 then body[..n] else rest[k - 1];
      }
    }
  }

  predicate EndsLine(t: Text) {
    t == [] || t[|t| - 1] == NEWLINE
  }

  lemma {:induction false} FirstLineOfConcat(a: Text, b: Text)
    requires a != [] && EndsLine(a)
    ensures FirstLineLength(a + b) == FirstLineLength(a)
    decreases |a|
  {
    if a[0] != NEWLINE && |a| > 1 {
      assert (a + b)[1..] == a[1..] + b;
      FirstLineOfConcat(a[1..], b);
    }
  }

  lemma LinesCons(line: Text, rest: Text)
    requires line != [] && FirstLineLength(line + rest) == |line|
    ensures Lines(line + rest) == [line] + Lines(rest)
  {
    assert (line + rest)[..|line|] == line && (line + rest)[|line|..] == rest;
  }

  lemma Assoc<T>(a: seq<T>, b: seq<T>, c: seq<T>)
    ensures a + (b + c) == a + b + c
  {
  }

  /** After a newline the lines of what follows are its own. */
  lemma {:induction false} LinesConcat(a: Text, b: Text)
    requires EndsLine(a)
    ensures Lines(a + b) == Lines(a) + Lines(b)
    decreases |a|
  {
    if a == [] {
      assert a + b == b;
    } else {
      var line, rest := a[..FirstLineLength(a)], a[FirstLineLength(a)..];
      FirstLineOfConcat(a, b);
      assert a == line + rest;
      Assoc(line, rest, b);
      LinesConcat(rest, b);
      hide FirstLineLength, Lines;
      LinesCons(line, rest);
      LinesCons(line, rest + b);
      Assoc([line], Lines(rest), Lines(b));
    }
  }

  // ---------------------------------------------------------------- headers

  function SkipSpaces(t: Text): Text {
    if t != [] && t[0] == 32 then SkipSpaces(t[1..]) else t
  }

  function LeadingHashes(t: Text): (n: nat)
    ensures n <= |t|
  {
    if t != [] && t[0] == 35 then 1 + LeadingHashes(t[1..]) else 0
  }

  /** One to six hashes after any spaces, then the end, a space, a tab or a newline. */
  predicate IsAtxHeader(line: Text) {
    var trimmed := SkipSpaces(line);
    var hashes := LeadingHashes(trimmed);
    1 <= hashes <= 6 && (hashes == |trimmed| || trimmed[hashes] in {32, 9, 10})
  }

  predicate All(t: Text, b: Byte) {
    forall i | 0 <= i < |t| :: t[i] == b
  }

  lemma {:induction false} SkipSpacesIs(t: Text) returns (n: nat)
    ensures n <= |t| && SkipSpaces(t) == t[n..] && All(t[..n], 32) && (n < |t| ==> t[n] != 32)
  {
    n := 0;
    if t != [] && t[0] == 32 {
      n := SkipSpacesIs(t[1..]);
      n := n + 1;
      assert t[..n] == [t[0]] + t[1..][..n - 1];
    }
  }

  lemma {:induction false} LeadingHashesIs(t: Text)
    ensures var n := LeadingHashes(t); All(t[..n], 35) && (n < |t| ==> t[n] != 35)
  {
    if t != [] && t[0] == 35 {
      LeadingHashesIs(t[1..]);
      var n := LeadingHashes(t);
      assert t[..n] == [t[0]] + t[1..][..n - 1];
    }
  }

  /** Spaces, hashes `[i..j]`, and then nothing more of the line or something that ends the hashes. */
  predicate HeaderAt(line: Text, i: nat, j: nat) {
    && i < j <= |line| && j - i <= 6 && All(line[..i], 32) && All(line[i..j], 35)
    && (j == |line| || line[j] in {32, 9, 10})
  }

  lemma HashesEnd(t: Text, n: nat)
    requires n <= |t| && All(t[..n], 35) && (n < |t| ==> t[n] != 35)
    ensures LeadingHashes(t) == n
  {
    LeadingHashesIs(t);
    OneRun(t, 35, n, LeadingHashes(t));
  }

  /** A text begins with one run of a byte. */
  lemma OneRun(t: Text, x: Byte, a: nat, b: nat)
    requires a <= |t| && All(t[..a], x) && (a < |t| ==> t[a] != x)
    requires b <= |t| && All(t[..b], x) && (b < |t| ==> t[b] != x)
    ensures a == b
  {
    forall i | 0 <= i < a ensures t[i] == x {
      assert t[..a][i] == x;
    }
    forall i | 0 <= i < b ensures t[i] == x {
      assert t[..b][i] == x;
    }
  }

  /** A header is any number of spaces, one to six hashes, and then the end, a space, a tab or a newline. */
  lemma AtxHeaderIff(line: Text)
    ensures IsAtxHeader(line) <==> exists i: nat, j: nat :: HeaderAt(line, i, j)
  {
    var s := SkipSpacesIs(line);
    var t := line[s..];
    LeadingHashesIs(t);
    var n := LeadingHashes(t);
    if IsAtxHeader(line) {
      assert line[s..s + n] == t[..n];
      assert HeaderAt(line, s, s + n);
    }
    if i: nat, j: nat :| HeaderAt(line, i, j) {
      assert line[i..j][0] == 35;
      OneRun(line, 32, s, i);
      assert t[..j - i] == line[i..j];
      HashesEnd(t, j - i);
    }
  }

  /** The text begins with a header line. */
  predicate StartsAtHeader(t: Text) {
    t != [] && IsAtxHeader(t[..FirstLineLength(t)])
  }

  // --------------------------------------------------------------- sections

  /** Lines gathered into sections, each cut before a header. */
  function Gathered(current: Text, lines: seq<Text>): seq<Text>
    decreases |lines|
  {
    if lines == [] then (if current == [] then [] else [current])
    else if IsAtxHeader(lines[0]) && current != [] then [current] + Gathered(lines[0], lines[1..])
    else Gathered(current + lines[0], lines[1..])
  }

  function SectionsOf(body: Text): seq<Text> {
    if body == [] then [body] else Gathered([], Lines(body))
  }

  /** `split_markdown_sections`. */
  method SplitSections(body: Text) returns (sections: seq<Text>)
    ensures sections == SectionsOf(body)
  {
    var lines := Lines(body);
    var current: Text := [];
    sections := [];
    for i := 0 to |lines|
      invariant sections + Gathered(current, lines[i..]) == Gathered([], lines)
    {
      assert lines[i..][1..] == lines[i + 1..] && [] + lines[i] == lines[i];
      if IsAtxHeader(lines[i]) && current != [] {
        sections := sections + [current];
        current := [];
      }
      current := current + lines[i];
    }
    if current != [] {
      sections := sections + [current];
    }
    assert sections == Gathered([], lines);
    LinesFlatten(body);
    GatheredFlatten([], lines);
    if sections == [] {
      sections := [body];
    }
  }

  lemma {:induction false} GatheredFlatten(current: Text, lines: seq<Text>)
    ensures Flatten(Gathered(current, lines)) == current + Flatten(lines)
    ensures forall i | 0 <= i < |Gathered(current, lines)| :: Gathered(current, lines)[i] != []
    decreases |lines|
  {
    if lines != [] {
      if IsAtxHeader(lines[0]) && current != [] {
        GatheredFlatten(lines[0], lines[1..]);
        assert current + (lines[0] + Flatten(lines[1..])) == current + Flatten(lines);
      } else {
        GatheredFlatten(current + lines[0], lines[1..]);
        assert current + lines[0] + Flatten(lines[1..]) == current + Flatten(lines);
      }
    }
  }

  /** Sections put back together are the body, and none is empty unless the body is. */
  lemma SectionsFlatten(body: Text)
    ensures Flatten(SectionsOf(body)) == body
    ensures body != [] ==> SectionsOf(body) != [] && forall i | 0 <= i < |SectionsOf(body)| :: SectionsOf(body)[i] != []
  {
    if body == [] {
      FlattenOne(body);
    } else {
      LinesFlatten(body);
      GatheredFlatten([], Lines(body));
    }
  }

  /** A header may begin the text, but no other line of it is one. */
  predicate NoInnerHeader(t: Text) {
    forall i | 1 <= i < |Lines(t)| :: !IsAtxHeader(Lines(t)[i])
  }

  /** `lines` is what `Lines` yields for some text: whole lines, only the last maybe unfinished. */
  predicate AreLines(lines: seq<Text>) {
    && (forall i | 0 <= i < |lines| :: Lines(lines[i]) == [lines[i]])
    && (forall i | 0 <= i < |lines| - 1 :: EndsLine(lines[i]))
  }

  lemma {:induction false} OneLine(line: Text)
    requires line != [] && FirstLineLength(line) == |line|
    ensures Lines(line) == [line]
  {
    assert line[..|line|] == line && line[|line|..] == [];
  }

  lemma {:induction false} FirstLineIsALine(body: Text)
    requires body != []
    ensures FirstLineLength(body[..FirstLineLength(body)]) == FirstLineLength(body)
    decreases |body|
  {
    var n := FirstLineLength(body);
    if body[0] != NEWLINE && |body| > 1 {
      FirstLineIsALine(body[1..]);
      assert body[..n][1..] == body[1..][..n - 1];
    }
  }

  lemma LinesNonempty(body: Text)
    ensures Lines(body) == [] <==> body == []
  {
  }

  lemma {:induction false} LinesAreLines(body: Text)
    ensures AreLines(Lines(body))
    decreases |body|
  {
    if body != [] {
      var n := FirstLineLength(body);
      FirstLineIsALine(body);
      OneLine(body[..n]);
      assert Lines(body) == [body[..n]] + Lines(body[n..]);
      hide FirstLineLength, Lines;
      LinesAreLines(body[n..]);
      LinesNonempty(body[n..]);
    }
  }

  /** A section under construction: whole lines with no header after the first. */
  predicate Building(current: Text) {
    EndsLine(current) && NoInnerHeader(current)
  }

  lemma Extended(current: Text, line: Text)
    requires Building(current) && Lines(line) == [line] && (current == [] || !IsAtxHeader(line))
    ensures NoInnerHeader(current + line) && line != []
    ensures current != [] ==> StartsAtHeader(current + line) == StartsAtHeader(current)
  {
    LinesConcat(current, line);
    if current == [] {
      assert current + line == line;
    } else {
      FirstLineOfConcat(current, line);
      assert (current + line)[..FirstLineLength(current)] == current[..FirstLineLength(current)];
    }
  }

  lemma HeaderLineStarts(line: Text)
    requires Lines(line) == [line] && IsAtxHeader(line)
    ensures StartsAtHeader(line) && NoInnerHeader(line)
  {
    assert line != [];
    assert Lines(line)[0] == line[..FirstLineLength(line)];
  }

  /** Headers only at the start of sections, and at the start of all but the first. */
  predicate Headed(r: seq<Text>) {
    && (forall i | 0 <= i < |r| :: NoInnerHeader(r[i]))
    && (forall i | 1 <= i < |r| :: StartsAtHeader(r[i]))
  }

  lemma HeadedCons(x: Text, r: seq<Text>)
    requires NoInnerHeader(x) && Headed(r) && (r != [] ==> StartsAtHeader(r[0]))
    ensures Headed([x] + r)
  {
    hide NoInnerHeader, StartsAtHeader;
  }

  lemma AreLinesRest(lines: seq<Text>)
    requires AreLines(lines) && lines != []
    ensures AreLines(lines[1..]) && Lines(lines[0]) == [lines[0]] && (lines[1..] != [] ==> EndsLine(lines[0]))
  {
  }

  lemma {:induction false} GatheredHeaders(current: Text, lines: seq<Text>)
    requires AreLines(lines) && NoInnerHeader(current) && (lines != [] ==> EndsLine(current))
    ensures Headed(Gathered(current, lines))
    ensures current != [] ==> Gathered(current, lines) != [] && StartsAtHeader(Gathered(current, lines)[0]) == StartsAtHeader(current)
    decreases |lines|
  {
    hide IsAtxHeader, StartsAtHeader, Lines, NoInnerHeader;
    if lines != [] {
      var line, rest := lines[0], lines[1..];
      AreLinesRest(lines);
      hide AreLines;
      if IsAtxHeader(line) && current != [] {
        HeaderLineStarts(line);
        GatheredHeaders(line, rest);
        HeadedCons(current, Gathered(line, rest));
      } else {
        Extended(current, line);
        assert rest != [] ==> EndsLine(current + line);
        assert current + line != [];
        GatheredHeaders(current + line, rest);
      }
    }
  }

  /** Each section runs from one header to just before the next. */
  lemma SectionHeaders(body: Text)
    ensures Headed(SectionsOf(body))
  {
    if body == [] {
      assert Lines([]) == [];
    } else {
      LinesAreLines(body);
      assert NoInnerHeader([]) by {
        assert Lines([]) == [];
      }
      GatheredHeaders([], Lines(body));
    }
  }

  // ---------------------------------------------------------------- packing

  /** Sections packed greedily into groups of at most `max` bytes, an oversized one alone. */
  function Packed(current: seq<Text>, sections: seq<Text>, max: nat): seq<seq<Text>>
    decreases |sections|
  {
    if sections == [] then (if current == [] then [] else [current])
    else if current != [] && |Flatten(current)| + |sections[0]| > max then
      [current] + Packed([sections[0]], sections[1..], max)
    else Packed(current + [sections[0]], sections[1..], max)
  }

  function Joined(groups: seq<seq<Text>>): (r: seq<Text>)
    ensures |r| == |groups| && forall i | 0 <= i < |groups| :: r[i] == Flatten(groups[i])
  {
    if groups == [] then [] else [Flatten(groups[0])] + Joined(groups[1..])
  }

  predicate Nonempty(parts: seq<Text>) {
    forall i | 0 <= i < |parts| :: parts[i] != []
  }

  lemma FlattenNonempty(parts: seq<Text>)
    requires Nonempty(parts)
    ensures Flatten(parts) == [] <==> parts == []
  {
  }

  lemma PackStep(done: seq<seq<Text>>, current: seq<Text>, sections: seq<Text>, i: nat, max: nat)
    requires i < |sections|
    ensures var full := current != [] && |Flatten(current)| + |sections[i]| > max;
            done + Packed(current, sections[i..], max) ==
            (if full then done + [current] else done)
            + Packed((if full then [] else current) + [sections[i]], sections[i + 1..], max)
  {
    assert sections[i..][1..] == sections[i + 1..];
    assert [] + [sections[i]] == [sections[i]];
  }

  lemma JoinedAppend(groups: seq<seq<Text>>, group: seq<Text>)
    ensures Joined(groups + [group]) == Joined(groups) + [Flatten(group)]
  {
  }

  /** The packing loop: strings are joined as the groups grow. */
  method Pack(sections: seq<Text>, max: nat) returns (packed: seq<Text>)
    requires Nonempty(sections)
    ensures packed == Joined(Packed([], sections, max))
  {
    packed := [];
    var current: Text := [];
    ghost var done: seq<seq<Text>>, group: seq<Text> := [], [];
    for i := 0 to |sections|
      invariant packed == Joined(done) && current == Flatten(group) && Nonempty(group)
      invariant done + Packed(group, sections[i..], max) == Packed([], sections, max)
    {
      PackStep(done, group, sections, i, max);
      FlattenNonempty(group);
      JoinedAppend(done, group);
      hide Packed, Joined;
      if current != [] && |current| + |sections[i]| > max {
        packed := packed + [current];
        done, group := done + [group], [];
        current := [];
      }
      FlattenAppend(group, sections[i]);
      current, group := current + sections[i], group + [sections[i]];
    }
    FlattenNonempty(group);
    JoinedAppend(done, group);
    if current != [] {
      packed := packed + [current];
      done := done + [group];
    }
    assert done == Packed([], sections, max);
  }

  lemma FlattenCons<T>(first: seq<T>, rest: seq<seq<T>>)
    ensures Flatten([first] + rest) == first + Flatten(rest)
  {
    assert ([first] + rest)[1..] == rest;
  }

  /** No group is empty, and the first begins with the section that opened it. */
  lemma {:induction false} PackedGroups(current: seq<Text>, sections: seq<Text>, max: nat)
    ensures var r := Packed(current, sections, max);
            && (forall i | 0 <= i < |r| :: r[i] != [])
            && (current != [] ==> r != [] && r[0][0] == current[0])
    decreases |sections|
  {
    hide Flatten;
    if sections != [] {
      if current != [] && |Flatten(current)| + |sections[0]| > max {
        PackedGroups([sections[0]], sections[1..], max);
      } else {
        PackedGroups(current + [sections[0]], sections[1..], max);
      }
    }
  }

  /** Packing only groups: the sections come back in order. */
  lemma {:induction false} PackedFlatten(current: seq<Text>, sections: seq<Text>, max: nat)
    ensures Flatten(Packed(current, sections, max)) == current + sections
    decreases |sections|
  {
    if sections == [] {
      FlattenOne(current);
      assert current + sections == current;
    } else {
      var first, rest := sections[0], sections[1..];
      assert sections == [first] + rest;
      hide Flatten;
      Assoc(current, [first], rest);
      if current != [] && |Flatten(current)| + |first| > max {
        PackedFlatten([first], rest, max);
        FlattenCons(current, Packed([first], rest, max));
      } else {
        PackedFlatten(current + [first], rest, max);
      }
    }
  }

  predicate FitsOrAlone(group: seq<Text>, max: nat) {
    |Flatten(group)| <= max || |group| == 1
  }

  /** Greedy: no group had room for the section that opened the next one. */
  predicate Greedy(groups: seq<seq<Text>>, max: nat) {
    forall i | 0 < i < |groups| :: groups[i] != [] && |Flatten(groups[i - 1])| + |groups[i][0]| > max
  }

  lemma {:induction false} PackedIsGreedy(current: seq<Text>, sections: seq<Text>, max: nat)
    requires current != [] ==> FitsOrAlone(current, max)
    ensures Greedy(Packed(current, sections, max), max)
    ensures forall i | 0 <= i < |Packed(current, sections, max)| :: FitsOrAlone(Packed(current, sections, max)[i], max)
    decreases |sections|
  {
    if sections != [] {
      var first, rest := sections[0], sections[1..];
      if current != [] && |Flatten(current)| + |first| > max {
        PackedIsGreedy([first], rest, max);
        PackedGroups([first], rest, max);
      } else {
        FlattenAppend(current, first);
        PackedIsGreedy(current + [first], rest, max);
      }
    }
  }

  /** All texts but the last are whole lines. */
  predicate AllButLastEnd(parts: seq<Text>) {
    forall i | 0 <= i < |parts| - 1 :: EndsLine(parts[i])
  }

  lemma {:induction false} GatheredEnds(current: Text, lines: seq<Text>)
    requires AreLines(lines) && (lines != [] ==> EndsLine(current))
    ensures AllButLastEnd(Gathered(current, lines))
    decreases |lines|
  {
    if lines != [] {
      AreLinesRest(lines);
      hide AreLines, IsAtxHeader;
      if IsAtxHeader(lines[0]) && current != [] {
        GatheredEnds(lines[0], lines[1..]);
      } else {
        GatheredEnds(current + lines[0], lines[1..]);
      }
    }
  }

  /** Groups of such sections: whole inside, and headed from the second on. */
  predicate GroupsHeaded(groups: seq<seq<Text>>) {
    && (forall i | 0 <= i < |groups| :: groups[i] != [] && AllButLastEnd(groups[i]))
    && (forall i | 1 <= i < |groups| :: StartsAtHeader(groups[i][0]))
  }

  lemma GroupsHeadedCons(g: seq<Text>, r: seq<seq<Text>>)
    requires g != [] && AllButLastEnd(g) && GroupsHeaded(r) && (r != [] ==> StartsAtHeader(r[0][0]))
    ensures GroupsHeaded([g] + r)
  {
    hide AllButLastEnd, StartsAtHeader;
  }

  lemma EndsApart(a: seq<Text>, b: seq<Text>)
    requires AllButLastEnd(a + b)
    ensures AllButLastEnd(a) && AllButLastEnd(b)
  {
    forall i | 0 <= i < |a| - 1 ensures EndsLine(a[i]) {
      assert (a + b)[i] == a[i];
    }
    forall i | 0 <= i < |b| - 1 ensures EndsLine(b[i]) {
      assert (a + b)[|a| + i] == b[i];
    }
  }

  lemma {:induction false} PackedHeaders(current: seq<Text>, sections: seq<Text>, max: nat)
    requires AllButLastEnd(current + sections)
    requires forall i | 0 <= i < |sections| :: StartsAtHeader(sections[i]) || (i == 0 && current == [])
    ensures GroupsHeaded(Packed(current, sections, max))
    decreases |sections|
  {
    hide StartsAtHeader;
    EndsApart(current, sections);
    if sections != [] {
      var first, rest := sections[0], sections[1..];
      assert sections == [first] + rest && forall i | 0 <= i < |rest| :: rest[i] == sections[i + 1];
      if current != [] && |Flatten(current)| + |first| > max {
        PackedHeaders([first], rest, max);
        PackedGroups([first], rest, max);
        GroupsHeadedCons(current, Packed([first], rest, max));
      } else {
        assert current + sections == current + [first] + rest;
        PackedHeaders(current + [first], rest, max);
      }
    }
  }

  lemma HeaderStays(first: Text, rest: Text)
    requires StartsAtHeader(first) && (EndsLine(first) || rest == [])
    ensures StartsAtHeader(first + rest)
  {
    if rest == [] {
      assert first + rest == first;
    } else {
      FirstLineOfConcat(first, rest);
      assert (first + rest)[..FirstLineLength(first)] == first[..FirstLineLength(first)];
    }
  }

  /** A group begins with the header its first section begins with. */
  lemma GroupStartsAtHeader(group: seq<Text>)
    requires group != [] && AllButLastEnd(group) && StartsAtHeader(group[0])
    ensures StartsAtHeader(Flatten(group))
  {
    hide StartsAtHeader;
    if |group| == 1 {
      assert group == [group[0]];
      FlattenOne(group[0]);
    } else {
      assert EndsLine(group[0]);
      HeaderStays(group[0], Flatten(group[1..]));
    }
  }

  lemma PackedBodyHeaders(body: Text, max: nat)
    ensures GroupsHeaded(Packed([], SectionsOf(body), max))
  {
    SectionHeaders(body);
    if body != [] {
      LinesAreLines(body);
      GatheredEnds([], Lines(body));
    }
    assert [] + SectionsOf(body) == SectionsOf(body);
    PackedHeaders([], SectionsOf(body), max);
  }

  // ----------------------------------------------------------- hard slicing

  /** Pieces of at most `max` bytes on character boundaries, never an empty one. */
  function SliceEnd(body: Text, start: nat, max: nat): (end: nat)
    requires start < |body|
    ensures start < end <= |body|
  {
    var end := PrevBoundary(body, if start + max < |body| then start + max else |body|);
    if end <= start then NextBoundary(body, start + 1) else end
  }

  function Slices(body: Text, start: nat, max: nat): seq<Text>
    requires start <= |body|
    decreases |body| - start
  {
    if start == |body| then []
    else [body[start..SliceEnd(body, start, max)]] + Slices(body, SliceEnd(body, start, max), max)
  }

  lemma SliceStep(pieces: seq<Text>, body: Text, start: nat, max: nat)
    requires start < |body|
    ensures var end := SliceEnd(body, start, max);
            pieces + Slices(body, start, max) == pieces + [body[start..end]] + Slices(body, end, max)
  {
  }

  /** `hard_slice_to_budget`. */
  method HardSlice(body: Text, max: nat) returns (pieces: seq<Text>)
    ensures pieces == Slices(body, 0, max)
  {
    pieces := [];
    var start := 0;
    while start < |body|
      invariant start <= |body|
      invariant pieces + Slices(body, start, max) == Slices(body, 0, max)
    {
      SliceStep(pieces, body, start, max);
      hide Slices, PrevBoundary, NextBoundary;
      var end := FindPrevBoundary(body, start + max);
      if end <= start {
        end := FindNextBoundary(body, start + 1);
      }
      assert end == SliceEnd(body, start, max);
      pieces := pieces + [body[start..end]];
      start := end;
    }
  }

  lemma {:induction false} SlicesFlatten(body: Text, start: nat, max: nat)
    requires start <= |body|
    ensures Flatten(Slices(body, start, max)) == body[start..]
    decreases |body| - start
  {
    if start < |body| {
      var end := SliceEnd(body, start, max);
      SlicesFlatten(body, end, max);
      assert body[start..end] + body[end..] == body[start..];
    }
  }

  lemma {:induction false} SlicesFit(body: Text, start: nat, max: nat)
    requires WellFormed(body) && start <= |body| && max >= 4
    ensures forall i | 0 <= i < |Slices(body, start, max)| :: |Slices(body, start, max)[i]| <= max
    decreases |body| - start
  {
    if start < |body| {
      PrevBoundaryIsNear(body, if start + max < |body| then start + max else |body|);
      SlicesFit(body, SliceEnd(body, start, max), max);
    }
  }

  /** From boundary to boundary, as far as `max` bytes reach, and one character if they reach no further. */
  predicate SlicesWell(body: Text, start: nat, end: nat, max: nat) {
    && start < end <= |body| && IsBoundary(body, end)
    && (forall b | end < b <= |body| && b <= start + max :: !IsBoundary(body, b))
    && (end > start + max ==> forall b | start < b < end :: !IsBoundary(body, b))
  }

  lemma SliceEndIsWell(body: Text, start: nat, max: nat)
    requires start < |body|
    ensures SlicesWell(body, start, SliceEnd(body, start, max), max)
  {
    var end := SliceEnd(body, start, max);
    var at := if start + max < |body| then start + max else |body|;
    forall b | end < b <= |body| && b <= start + max ensures !IsBoundary(body, b) {
      if IsBoundary(body, b) {
        PrevBoundaryIsLast(body, at, b);
      }
    }
    forall b | start < b < end && end > start + max ensures !IsBoundary(body, b) {
      if IsBoundary(body, b) {
        NextBoundaryIsFirst(body, start + 1, b);
      }
    }
  }

  /** Where the slices are cut. */
  predicate CutsAt(body: Text, at: seq<nat>, start: nat, max: nat, pieces: seq<Text>) {
    && |at| == |pieces| + 1 && at[0] == start && at[|pieces|] == |body|
    && forall i | 0 <= i < |pieces| :: SlicesWell(body, at[i], at[i + 1], max) && pieces[i] == body[at[i]..at[i + 1]]
  }

  /** The slices follow each other, each on boundaries and as long as the budget lets it be. */
  lemma {:induction false} SlicesAreLongest(body: Text, start: nat, max: nat) returns (at: seq<nat>)
    requires start <= |body|
    ensures CutsAt(body, at, start, max, Slices(body, start, max))
    decreases |body| - start
  {
    hide IsBoundary, SliceEnd;
    at := [start];
    if start < |body| {
      var end := SliceEnd(body, start, max);
      SliceEndIsWell(body, start, max);
      var rest := SlicesAreLongest(body, end, max);
      at := [start] + rest;
      var pieces, later := Slices(body, start, max), Slices(body, end, max);
      assert pieces == [body[start..end]] + later;
      forall i | 0 <= i < |pieces|
        ensures SlicesWell(body, at[i], at[i + 1], max) && pieces[i] == body[at[i]..at[i + 1]]
      {
        if i > 0 {
          assert at[i] == rest[i - 1] && at[i + 1] == rest[i - 1 + 1] && pieces[i] == later[i - 1];
        }
      }
    }
  }

  // ------------------------------------------------------------- partitions

  function Partition(part: Text, max: nat, fits: Text -> bool): seq<Text> {
    if fits(part) then [part] else Slices(part, 0, max)
  }

  function Partitions(parts: seq<Text>, max: nat, fits: Text -> bool): seq<Text> {
    if parts == [] then [] else Partition(parts[0], max, fits) + Partitions(parts[1..], max, fits)
  }

  /** What a body is split into; `fits` stands for the three single-memory budgets. */
  function SplitBody(body: Text, max: nat, fits: Text -> bool): seq<Text> {
    if fits(body) || body == [] then [body]
    else Partitions(Joined(Packed([], SectionsOf(body), max)), max, fits)
  }

  lemma {:induction false} PartitionsFlatten(parts: seq<Text>, max: nat, fits: Text -> bool)
    ensures Flatten(Partitions(parts, max, fits)) == Flatten(parts)
  {
    if parts != [] {
      PartitionsFlatten(parts[1..], max, fits);
      FlattenConcat(Partition(parts[0], max, fits), Partitions(parts[1..], max, fits));
      if fits(parts[0]) {
        FlattenOne(parts[0]);
      } else {
        SlicesFlatten(parts[0], 0, max);
      }
    }
  }

  lemma {:induction false} JoinedFlatten(groups: seq<seq<Text>>)
    ensures Flatten(Joined(groups)) == Flatten(Flatten(groups))
  {
    if groups != [] {
      JoinedFlatten(groups[1..]);
      FlattenConcat(groups[0], Flatten(groups[1..]));
    }
  }

  lemma PackedBodyFlatten(body: Text, max: nat)
    ensures Flatten(Joined(Packed([], SectionsOf(body), max))) == body
  {
    var groups := Packed([], SectionsOf(body), max);
    PackedFlatten([], SectionsOf(body), max);
    JoinedFlatten(groups);
    SectionsFlatten(body);
    assert [] + SectionsOf(body) == SectionsOf(body);
  }

  /** Every body, whatever the budgets: the partitions put together are the body. */
  lemma SplitIsLossless(body: Text, max: nat, fits: Text -> bool)
    ensures Flatten(SplitBody(body, max, fits)) == body
  {
    if fits(body) || body == [] {
      FlattenOne(body);
    } else {
      PackedBodyFlatten(body, max);
      PartitionsFlatten(Joined(Packed([], SectionsOf(body), max)), max, fits);
    }
  }

  lemma PartitionStep(result: seq<Text>, parts: seq<Text>, i: nat, max: nat, fits: Text -> bool)
    requires i < |parts|
    ensures result + Partitions(parts[i..], max, fits) ==
            result + Partition(parts[i], max, fits) + Partitions(parts[i + 1..], max, fits)
  {
    assert parts[i..][1..] == parts[i + 1..];
  }

  /** The last loop: what fits is kept, what does not is sliced. */
  method SliceOversized(packed: seq<Text>, max: nat, fits: Text -> bool) returns (result: seq<Text>)
    ensures result == Partitions(packed, max, fits)
  {
    result := [];
    for i := 0 to |packed|
      invariant result + Partitions(packed[i..], max, fits) == Partitions(packed, max, fits)
    {
      PartitionStep(result, packed, i, max, fits);
      hide Partitions, Slices;
      if fits(packed[i]) {
        result := result + [packed[i]];
      } else {
        var pieces := HardSlice(packed[i], max);
        result := result + pieces;
      }
    }
  }

  /** `split_body_by_sections`. */
  method SplitBySections(body: Text, max: nat, fits: Text -> bool) returns (result: seq<Text>)
    ensures result == SplitBody(body, max, fits)
  {
    if fits(body) {
      return [body];
    }
    SectionsFlatten(body);
    SplitIsLossless(body, max, fits);
    hide SectionsOf, Packed, Partitions;
    var sections := SplitSections(body);
    var packed: seq<Text> := [];
    if body != [] {
      packed := Pack(sections, max);
    }
    result := SliceOversized(packed, max, fits);
    if result == [] {
      result := [body];
    }
  }

  // ---------------------------------------------------------------- promises

  lemma SliceIsWellFormed(body: Text, at: nat)
    requires WellFormed(body) && at <= |body| && (at < |body| ==> !IsContinuation(body[at]))
    ensures WellFormed(body[..at]) && WellFormed(body[at..])
  {
    var a, b := body[..at], body[at..];
    forall i: nat | i + 3 < |a| ensures !FourContinuations(a, i) {
      assert !FourContinuations(body, i);
    }
    forall i: nat | i + 3 < |b| ensures !FourContinuations(b, i) {
      assert !FourContinuations(body, at + i);
    }
    forall i: nat | i + 1 < |a| ensures !StrayContinuation(a, i) {
      assert !StrayContinuation(body, i);
    }
    forall i: nat | i + 1 < |b| ensures !StrayContinuation(b, i) {
      assert !StrayContinuation(body, at + i);
    }
  }

  lemma FlattenHead(parts: seq<Text>)
    requires parts != [] && parts[0] != []
    ensures Flatten(parts) != [] && Flatten(parts)[0] == parts[0][0]
  {
  }

  predicate BeginsCharacter(t: Text) {
    t != [] && !IsContinuation(t[0])
  }

  lemma FirstPartWellFormed(first: Text, rest: Text)
    requires WellFormed(first + rest) && (rest == [] || BeginsCharacter(rest))
    ensures WellFormed(first) && WellFormed(rest)
  {
    hide WellFormed;
    var body := first + rest;
    assert body[..|first|] == first && body[|first|..] == rest;
    SliceIsWellFormed(body, |first|);
  }

  /** Parts that begin with a character are texts themselves. */
  lemma {:induction false} PartsWellFormed(parts: seq<Text>)
    requires WellFormed(Flatten(parts))
    requires forall i | 1 <= i < |parts| :: BeginsCharacter(parts[i])
    ensures forall i | 0 <= i < |parts| :: WellFormed(parts[i])
  {
    if parts != [] {
      var rest := parts[1..];
      assert forall i | 0 <= i < |rest| :: rest[i] == parts[i + 1];
      if rest != [] {
        FlattenHead(rest);
      }
      hide WellFormed;
      FirstPartWellFormed(parts[0], Flatten(rest));
      PartsWellFormed(rest);
    }
  }

  lemma HeaderByte(t: Text)
    requires StartsAtHeader(t)
    ensures BeginsCharacter(t)
  {
    var line := t[..FirstLineLength(t)];
    assert line[0] == t[0];
  }

  lemma {:induction false} PartitionsFit(parts: seq<Text>, max: nat, fits: Text -> bool)
    requires max >= 4 && forall i | 0 <= i < |parts| :: WellFormed(parts[i])
    requires forall i | 0 <= i < |parts| :: fits(parts[i]) ==> |parts[i]| <= max
    ensures forall i | 0 <= i < |Partitions(parts, max, fits)| :: |Partitions(parts, max, fits)[i]| <= max
  {
    if parts != [] {
      PartitionsFit(parts[1..], max, fits);
      SlicesFit(parts[0], 0, max);
    }
  }

  lemma PackedPartsWellFormed(body: Text, max: nat)
    requires WellFormed(body)
    ensures forall i | 0 <= i < |Joined(Packed([], SectionsOf(body), max))| :: WellFormed(Joined(Packed([], SectionsOf(body), max))[i])
    ensures forall i | 1 <= i < |Joined(Packed([], SectionsOf(body), max))| :: StartsAtHeader(Joined(Packed([], SectionsOf(body), max))[i])
  {
    var groups := Packed([], SectionsOf(body), max);
    var parts := Joined(groups);
    PackedBodyHeaders(body, max);
    PackedBodyFlatten(body, max);
    hide SectionsOf, Packed, StartsAtHeader, WellFormed, Flatten;
    forall i | 1 <= i < |parts| ensures StartsAtHeader(parts[i]) && BeginsCharacter(parts[i]) {
      GroupStartsAtHeader(groups[i]);
      HeaderByte(parts[i]);
    }
    PartsWellFormed(parts);
  }

  /** Every text, whatever else the budgets count: no partition is over the byte budget. */
  lemma PartitionsWithinBudget(body: Text, max: nat, fits: Text -> bool)
    requires WellFormed(body) && max >= 4 && forall t :: fits(t) ==> |t| <= max
    ensures forall i | 0 <= i < |SplitBody(body, max, fits)| :: |SplitBody(body, max, fits)[i]| <= max
  {
    var parts := Joined(Packed([], SectionsOf(body), max));
    PackedPartsWellFormed(body, max);
    hide SectionsOf, Packed, WellFormed;
    PartitionsFit(parts, max, fits);
  }

  predicate AllFit(parts: seq<Text>, fits: Text -> bool) {
    forall i | 0 <= i < |parts| :: fits(parts[i])
  }

  lemma {:induction false} PartitionsUnsliced(parts: seq<Text>, max: nat, fits: Text -> bool)
    requires AllFit(parts, fits)
    ensures Partitions(parts, max, fits) == parts
  {
    if parts != [] {
      PartitionsUnsliced(parts[1..], max, fits);
    }
  }

  /** No hard slicing: the packed groups are the partitions, all but the first begin at a header,
      and none had room for the section that opens the next. */
  lemma UnslicedStartsAtHeaders(body: Text, max: nat, fits: Text -> bool)
    requires !fits(body) && body != []
    requires AllFit(Joined(Packed([], SectionsOf(body), max)), fits)
    ensures SplitBody(body, max, fits) == Joined(Packed([], SectionsOf(body), max))
    ensures forall i | 1 <= i < |SplitBody(body, max, fits)| :: StartsAtHeader(SplitBody(body, max, fits)[i])
    ensures Greedy(Packed([], SectionsOf(body), max), max)
  {
    var groups := Packed([], SectionsOf(body), max);
    var parts := Joined(groups);
    PartitionsUnsliced(parts, max, fits);
    PackedBodyHeaders(body, max);
    PackedIsGreedy([], SectionsOf(body), max);
    hide SectionsOf, Packed, StartsAtHeader, Flatten, Partitions;
    forall i | 1 <= i < |parts| ensures StartsAtHeader(parts[i]) {
      GroupStartsAtHeader(groups[i]);
    }
  }

  lemma {:induction false} PartitionsIff(parts: seq<Text>, max: nat, fits: Text -> bool, p: Text)
    ensures p in Partitions(parts, max, fits) <==>
            exists q :: q in parts && if fits(q) then p == q else p in Slices(q, 0, max)
  {
    if parts != [] {
      PartitionsIff(parts[1..], max, fits, p);
      assert forall q :: q in parts <==> q == parts[0] || q in parts[1..];
    }
  }

  /** What fits stays whole: the body itself, and else every packed group; only the others are sliced. */
  lemma FittingStaysWhole(body: Text, max: nat, fits: Text -> bool, p: Text)
    ensures fits(body) ==> SplitBody(body, max, fits) == [body]
    ensures !fits(body) && body != [] ==>
              (p in SplitBody(body, max, fits) <==>
               exists q :: q in Joined(Packed([], SectionsOf(body), max)) && if fits(q) then p == q else p in Slices(q, 0, max))
  {
    hide Packed, SectionsOf, Joined, Slices, Partitions;
    PartitionsIff(Joined(Packed([], SectionsOf(body), max)), max, fits, p);
  }
}
