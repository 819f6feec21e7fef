/**
 Where a requested key lives, decided before any predicate runs.

 `Classify` resolves a key as text, one whole spelling at a time; `Filter.Lookup`
 resolves the same key as a split path with a fallback on its last segment. The
 gate trusts the first and the shaping knobs use the second, so they must agree.
 */
module Vocabulary {
  import opened Wrappers
  import opened Json
  import opened Texts
  import opened Filter

  datatype KeyOrigin = Element | EnvelopeOnly | Absent

  /** Length of the prefix up to and including the last dot. */
  function PrefixLen(key: string): (n: nat)
    ensures n <= |key|
    ensures Dotless(key[n..])
    ensures n > 0 ==> key[n - 1] == '.'
  {
    if key == "" then 0
    else if key[|key| - 1] == '.' then |key|
    else
      var n := PrefixLen(key[..|key| - 1]);
      assert key[n..] == key[..|key| - 1][n..] + [key[|key| - 1]];
      n
  }

  function AddCandidates(out: seq<string>, prefix: string, leaf: string, group: seq<string>): seq<string>
    decreases |group|
  {
    if group == [] then out
    else
      var candidate := prefix + group[0];
      AddCandidates(if group[0] != leaf && candidate !in out then out + [candidate] else out,
                    prefix, leaf, group[1..])
  }

  function AddCandidateGroups(out: seq<string>, prefix: string, leaf: string, groups: seq<seq<string>>): seq<string>
    decreases |groups|
  {
    if groups == [] then out
    else
      AddCandidateGroups(if leaf in groups[0] then AddCandidates(out, prefix, leaf, groups[0]) else out,
                         prefix, leaf, groups[1..])
  }

  /** The names a field goes by: the given key, then that key with its leaf replaced by each synonym. */
  function Spellings(key: string, groups: seq<seq<string>>): seq<string> {
    AddCandidateGroups([key], key[..PrefixLen(key)], key[PrefixLen(key)..], groups)
  }

  /** `c` is `key` with its last segment replaced by a synonym of it. */
  predicate Respells(key: string, c: string, groups: seq<seq<string>>) {
    var n := PrefixLen(key);
    n <= |c| && c[..n] == key[..n] && Siblings(key[n..], c[n..], groups)
  }

  method SpellingsOf(key: string, groups: seq<seq<string>>) returns (out: seq<string>)
    ensures out == Spellings(key, groups) && out != [] && out[0] == key && Distinct(out)
    ensures forall c :: c in out <==> c == key || Respells(key, c, groups)
  {
    var prefix, leaf := key[..PrefixLen(key)], key[PrefixLen(key)..];
    out := [key];
    for i := 0 to |groups|
      invariant AddCandidateGroups(out, prefix, leaf, groups[i..]) == Spellings(key, groups)
    {
      var group := groups[i];
      if leaf in group {
        ghost var before := out;
        for j := 0 to |group|
          invariant AddCandidates(out, prefix, leaf, group[j..]) == AddCandidates(before, prefix, leaf, group)
        {
          var candidate := prefix + group[j];
          if group[j] != leaf && candidate !in out {
            out := out + [candidate];
          }
        }
      }
    }
    SpellingsAreDistinct(key, groups);
    hide Spellings, Distinct, Respells;
    forall c ensures c in out <==> c == key || Respells(key, c, groups) {
      SpellingsIff(key, groups, c);
    }
  }

  predicate CarriesAny(v: Value, candidates: seq<string>) {
    exists c :: c in candidates && Walked(v, Split(c)).Some?
  }

  predicate AnyCarries(elements: seq<Value>, candidates: seq<string>) {
    exists e :: e in elements && CarriesAny(e, candidates)
  }

  function Classify(elements: seq<Value>, envelope: Value, key: string, groups: seq<seq<string>>): KeyOrigin {
    var candidates := Spellings(key, groups);
    if AnyCarries(elements, candidates) then Element
    else if CarriesAny(envelope, candidates) then EnvelopeOnly
    else Absent
  }

  // ------------------------------------------------- the two spelling lists

  /** `prefix` put before every text of `tail`. */
  function Prefixed(prefix: string, tail: seq<string>): (r: seq<string>)
    ensures |r| == |tail|
    ensures forall i | 0 <= i < |tail| :: r[i] == prefix + tail[i]
  {
    if tail == [] then [] else [prefix + tail[0]] + Prefixed(prefix, tail[1..])
  }

  lemma PrefixCancels(prefix: string, a: string, b: string)
    ensures prefix + a == prefix + b <==> a == b
  {
    assert (prefix + a)[|prefix|..] == a;
    assert (prefix + b)[|prefix|..] == b;
  }

  lemma PrefixedMember(prefix: string, tail: seq<string>, s: string)
    ensures prefix + s in Prefixed(prefix, tail) <==> s in tail
  {
    forall i | 0 <= i < |tail| ensures prefix + s == prefix + tail[i] <==> s == tail[i] {
      PrefixCancels(prefix, s, tail[i]);
    }
    if s in tail {
      var i :| 0 <= i < |tail| && tail[i] == s;
      assert Prefixed(prefix, tail)[i] == prefix + s;
    }
  }

  lemma PrefixedStart(prefix: string, tail: seq<string>, c: string)
    ensures c in Prefixed(prefix, tail) ==> prefix <= c
  {
    forall i | 0 <= i < |tail| ensures prefix <= Prefixed(prefix, tail)[i] {
      assert prefix <= prefix + tail[i];
    }
  }

  lemma PrefixedAppend(prefix: string, tail: seq<string>, s: string)
    ensures Prefixed(prefix, tail + [s]) == Prefixed(prefix, tail) + [prefix + s]
  {
  }

  lemma {:induction false} CandidatesAreSpellings(tail: seq<string>, prefix: string, leaf: string, group: seq<string>)
    ensures AddCandidates([prefix + leaf] + Prefixed(prefix, tail), prefix, leaf, group) ==
            [prefix + leaf] + Prefixed(prefix, AddSpellings(tail, leaf, group))
    decreases |group|
  {
    if group != [] {
      var s := group[0];
      var out := [prefix + leaf] + Prefixed(prefix, tail);
      PrefixedMember(prefix, tail, s);
      PrefixCancels(prefix, s, leaf);
      PrefixedAppend(prefix, tail, s);
      if s != leaf && s !in tail {
        assert out + [prefix + s] == [prefix + leaf] + Prefixed(prefix, tail + [s]);
        CandidatesAreSpellings(tail + [s], prefix, leaf, group[1..]);
      } else {
        CandidatesAreSpellings(tail, prefix, leaf, group[1..]);
      }
    }
  }

  lemma {:induction false} CandidateGroupsAreSpellings(tail: seq<string>, prefix: string, leaf: string, groups: seq<seq<string>>)
    ensures AddCandidateGroups([prefix + leaf] + Prefixed(prefix, tail), prefix, leaf, groups) ==
            [prefix + leaf] + Prefixed(prefix, AddGroups(tail, leaf, groups))
    decreases |groups|
  {
    if groups != [] {
      CandidatesAreSpellings(tail, prefix, leaf, groups[0]);
      CandidateGroupsAreSpellings(if leaf in groups[0] then AddSpellings(tail, leaf, groups[0]) else tail,
                                  prefix, leaf, groups[1..]);
    }
  }

  /** The gate's spellings are the key itself and the walk's synonyms, in the same order. */
  lemma SpellingsAreSynonyms(key: string, groups: seq<seq<string>>)
    ensures var n := PrefixLen(key);
            Spellings(key, groups) == [key] + Prefixed(key[..n], Synonyms(key[n..], groups))
  {
    var n := PrefixLen(key);
    assert key[..n] + key[n..] == key;
    assert [key] + Prefixed(key[..n], []) == [key];
    CandidateGroupsAreSpellings([], key[..n], key[n..], groups);
  }

  /** The spellings of a key are the key and exactly its respellings. */
  lemma SpellingsIff(key: string, groups: seq<seq<string>>, c: string)
    ensures c in Spellings(key, groups) <==> c == key || Respells(key, c, groups)
  {
    var n := PrefixLen(key);
    var prefix, synonyms := key[..n], Synonyms(key[n..], groups);
    SpellingsAreSynonyms(key, groups);
    hide Spellings, Synonyms, PrefixLen, Siblings;
    PrefixedStart(prefix, synonyms, c);
    if n <= |c| && c[..n] == prefix {
      assert c == prefix + c[n..];
      SynonymsIff(key[n..], groups, c[n..]);
      PrefixedMember(prefix, synonyms, c[n..]);
    }
  }

  /** The key comes first and no spelling comes twice. */
  lemma SpellingsAreDistinct(key: string, groups: seq<seq<string>>)
    ensures Spellings(key, groups) != [] && Spellings(key, groups)[0] == key && Distinct(Spellings(key, groups))
  {
    var n := PrefixLen(key);
    var prefix, synonyms := key[..n], Synonyms(key[n..], groups);
    var r := Spellings(key, groups);
    SpellingsAreSynonyms(key, groups);
    SynonymsIff(key[n..], groups, key[n..]);
    assert key == prefix + key[n..];
    hide Spellings, Synonyms, PrefixLen;
    forall i, j | 0 <= i < j < |r| ensures r[i] != r[j] {
      PrefixCancels(prefix, if i == 0 then key[n..] else synonyms[i - 1], synonyms[j - 1]);
    }
  }

  /** Splitting at the last dot of a key: the segments before it, and those of what comes after. */
  lemma SplitLast(key: string, n: nat, s: string)
    requires n <= |key| && (n > 0 ==> key[n - 1] == '.')
    ensures Split(key[..n] + s) == (if n == 0 then [] else Split(key[..n - 1])) + Split(s)
  {
    hide Split;
    if n == 0 {
      assert key[..n] + s == s;
    } else {
      assert key[..n] + s == key[..n - 1] + "." + s;
      SplitConcat(key[..n - 1], s);
    }
  }

  /** Splitting a key with its leaf replaced keeps every segment before the last. */
  lemma SplitRespelled(key: string, s: string)
    ensures var n := PrefixLen(key);
            var path := Split(key);
            && path[|path| - 1] == key[n..]
            && Split(key[..n] + s) == path[..|path| - 1] + Split(s)
  {
    var n := PrefixLen(key);
    assert key[..n] + key[n..] == key;
    SplitLast(key, n, key[n..]);
    SplitLast(key, n, s);
    SplitDotless(key[n..]);
    hide Split, PrefixLen;
  }

  lemma {:induction false} SpellingsDotless(out: seq<string>, leaf: string, group: seq<string>)
    requires forall i | 0 <= i < |out| :: Dotless(out[i])
    requires forall i | 0 <= i < |group| :: Dotless(group[i])
    ensures forall i | 0 <= i < |AddSpellings(out, leaf, group)| :: Dotless(AddSpellings(out, leaf, group)[i])
    decreases |group|
  {
    if group != [] {
      SpellingsDotless(if group[0] != leaf && group[0] !in out then out + [group[0]] else out, leaf, group[1..]);
    }
  }

  lemma {:induction false} GroupsDotless(out: seq<string>, leaf: string, groups: seq<seq<string>>)
    requires forall i | 0 <= i < |out| :: Dotless(out[i])
    requires NoDots(groups)
    ensures forall i | 0 <= i < |AddGroups(out, leaf, groups)| :: Dotless(AddGroups(out, leaf, groups)[i])
    decreases |groups|
  {
    if groups != [] {
      SpellingsDotless(out, leaf, groups[0]);
      assert NoDots(groups[1..]);
      GroupsDotless(if leaf in groups[0] then AddSpellings(out, leaf, groups[0]) else out, leaf, groups[1..]);
    }
  }

  // ------------------------------------------------------------- agreement

  /** No synonym of the last segment of `key` has a dot. */
  predicate PlainSynonyms(key: string, groups: seq<seq<string>>) {
    forall s | s in Synonyms(key[PrefixLen(key)..], groups) :: Dotless(s)
  }

  lemma NoDotsIsPlain(key: string, groups: seq<seq<string>>)
    requires NoDots(groups)
    ensures PlainSynonyms(key, groups)
  {
    GroupsDotless([], key[PrefixLen(key)..], groups);
  }

  /** Split, the gate's spellings are the paths the walk tries, position by position. */
  lemma SpellingPaths(key: string, groups: seq<seq<string>>)
    requires PlainSynonyms(key, groups)
    ensures var path := Split(key);
            var synonyms := Synonyms(path[|path| - 1], groups);
            var spellings := Spellings(key, groups);
            && |spellings| == |synonyms| + 1 && spellings[0] == key
            && forall i | 0 <= i < |synonyms| :: Split(spellings[i + 1]) == path[..|path| - 1] + [synonyms[i]]
  {
    hide Split, PrefixLen, Spellings, Synonyms;
    var path := Split(key);
    var synonyms := Synonyms(key[PrefixLen(key)..], groups);
    var spellings := Spellings(key, groups);
    SpellingsAreSynonyms(key, groups);
    SplitRespelled(key, "");
    forall i | 0 <= i < |synonyms| ensures Split(spellings[i + 1]) == path[..|path| - 1] + [synonyms[i]] {
      assert synonyms[i] in synonyms;
      SplitRespelled(key, synonyms[i]);
      SplitDotless(synonyms[i]);
    }
  }

  lemma TextFindsWalk(v: Value, path: seq<string>, synonyms: seq<string>, spellings: seq<string>)
    requires path != [] && |spellings| == |synonyms| + 1 && Split(spellings[0]) == path
    requires forall i | 0 <= i < |synonyms| :: Split(spellings[i + 1]) == path[..|path| - 1] + [synonyms[i]]
    ensures CarriesAny(v, spellings) <==>
            Walked(v, path).Some? || exists s :: s in synonyms && Walked(v, path[..|path| - 1] + [s]).Some?
  {
    if CarriesAny(v, spellings) {
      var c :| c in spellings && Walked(v, Split(c)).Some?;
      var i :| 0 <= i < |spellings| && spellings[i] == c;
      if i > 0 {
        assert synonyms[i - 1] in synonyms && Split(spellings[i - 1 + 1]) == path[..|path| - 1] + [synonyms[i - 1]];
      }
    }
    if s :| s in synonyms && Walked(v, path[..|path| - 1] + [s]).Some? {
      var i :| 0 <= i < |synonyms| && synonyms[i] == s;
      assert spellings[i + 1] in spellings;
    }
    assert spellings[0] in spellings;
  }

  /** On one value: some spelling resolves as text exactly when the walk finds the key. */
  lemma ResolversAgree(v: Value, key: string, groups: seq<seq<string>>)
    requires PlainSynonyms(key, groups)
    ensures CarriesAny(v, Spellings(key, groups)) <==> Lookup(v, Split(key), groups).Some?
  {
    var path := Split(key);
    var synonyms := Synonyms(path[|path| - 1], groups);
    SpellingPaths(key, groups);
    TextFindsWalk(v, path, synonyms, Spellings(key, groups));
    FirstWalkedSome(v, path[..|path| - 1], synonyms);
  }

  /** The gate says `Element` exactly when the walk will find the key in some element. */
  lemma GateAndWalkAgree(elements: seq<Value>, envelope: Value, key: string, groups: seq<seq<string>>)
    requires NoDots(groups)
    ensures Classify(elements, envelope, key, groups) == Element
            <==> exists e :: e in elements && Lookup(e, Split(key), groups).Some?
    ensures Classify(elements, envelope, key, groups) == Absent
            <==> Lookup(envelope, Split(key), groups).None?
                 && forall e :: e in elements ==> Lookup(e, Split(key), groups).None?
  {
    NoDotsIsPlain(key, groups);
    forall e | e in elements || e == envelope
      ensures CarriesAny(e, Spellings(key, groups)) <==> Lookup(e, Split(key), groups).Some?
    {
      ResolversAgree(e, key, groups);
    }
  }

  /** The shipped synonym table meets the hypothesis, for every command. */
  lemma ShippedSynonymsHaveNoDots(command: Option<string>)
    ensures NoDots(GroupsFor(SHIPPED_SYNONYMS, command))
  {
    var groups := GroupsFor(SHIPPED_SYNONYMS, command);
    forall i, j | 0 <= i < |groups| && 0 <= j < |groups[i]| ensures Dotless(groups[i][j]) {
      assert groups[i] in groups;
      assert groups[i] == SHIPPED_SYNONYMS[0].spellings || groups[i] == SHIPPED_SYNONYMS[1].spellings;
    }
  }

  /** A parsed predicate carries its key through split and join, so the gate judges what was parsed. */
  lemma ParsedKeyIsItsPath(raw: string)
    ensures match Parsed(raw)
            case Ok(expr) => Split(expr.Key()) == expr.path
            case Err(_) => true
  {
    if Parsed(raw).Ok? {
      var key := Trim(raw[..FirstOperator(raw, 0).value]);
      JoinSplit(key);
    }
  }

  // ---------------------------------------------------------- disagreement

  /** Objects of one member each, along `path`. */
  function Nested(path: seq<string>, v: Value): Value {
    if path == [] then v else Obj([Member(path[0], Nested(path[1..], v))])
  }

  lemma {:induction false} NestedWalk(a: seq<string>, b: seq<string>, v: Value, path: seq<string>)
    ensures Walked(Nested(a + b, v), a + path) == Walked(Nested(b, v), path)
    decreases |a|
  {
    if a == [] {
      assert a + b == b && a + path == path;
    } else {
      assert (a + b)[1..] == a[1..] + b && (a + path)[1..] == a[1..] + path;
      var inner := Nested(a[1..] + b, v);
      assert Nested(a + b, v) == Obj([Member(a[0], inner)]);
      assert Get([Member(a[0], inner)], a[0]) == Some(inner);
      NestedWalk(a[1..], b, v, path);
    }
  }

  /** A member whose own name is the dotted synonym: the walk finds it. */
  lemma DottedIsWalked(key: string, groups: seq<seq<string>>, s: string)
    requires s in Synonyms(key[PrefixLen(key)..], groups)
    ensures var path := Split(key); Lookup(Nested(path[..|path| - 1] + [s], Null), path, groups).Some?
  {
    var path := Split(key);
    var head := path[..|path| - 1];
    SplitRespelled(key, "");
    NestedWalk(head + [s], [], Null, []);
    assert head + [s] + [] == head + [s];
    FirstWalkedSome(Nested(head + [s], Null), head, Synonyms(path[|path| - 1], groups));
  }

  /** No path split from a text leads to a member with a dot in its name. */
  lemma DottedIsNotSplit(head: seq<string>, s: string, t: string)
    requires !Dotless(s)
    ensures Walked(Nested(head + [s], Null), head + Split(t)).None?
  {
    NestedWalk(head, [s], Null, Split(t));
    SplitSegmentsDotless(t);
    assert Dotless(Split(t)[0]);
    assert Nested([s], Null) == Obj([Member(s, Nested([], Null))]);
    assert Get([Member(s, Nested([], Null))], Split(t)[0]).None?;
  }

  /** The text resolver does not find that member, under any spelling. */
  lemma DottedIsNotCarried(key: string, groups: seq<seq<string>>, s: string)
    requires !Dotless(s)
    ensures var path := Split(key); !CarriesAny(Nested(path[..|path| - 1] + [s], Null), Spellings(key, groups))
  {
    hide Split, PrefixLen, Spellings, Walked, Nested, Siblings;
    var path, n := Split(key), PrefixLen(key);
    var head := path[..|path| - 1];
    forall c | c in Spellings(key, groups) ensures Walked(Nested(head + [s], Null), Split(c)).None? {
      SpellingsIff(key, groups, c);
      assert key == key[..n] + key[n..];
      assert c == key[..n] + c[n..];
      SplitRespelled(key, c[n..]);
      DottedIsNotSplit(head, s, c[n..]);
    }
  }

  /** The exact condition: text resolver and path walk agree on every value if and only if no synonym
      of the key's last segment has a dot. */
  lemma AgreementIff(key: string, groups: seq<seq<string>>)
    ensures (forall v :: CarriesAny(v, Spellings(key, groups)) <==> Lookup(v, Split(key), groups).Some?)
            <==> PlainSynonyms(key, groups)
  {
    if PlainSynonyms(key, groups) {
      forall v ensures CarriesAny(v, Spellings(key, groups)) <==> Lookup(v, Split(key), groups).Some? {
        ResolversAgree(v, key, groups);
      }
    } else {
      var s :| s in Synonyms(key[PrefixLen(key)..], groups) && !Dotless(s);
      DottedIsWalked(key, groups, s);
      DottedIsNotCarried(key, groups, s);
    }
  }

  // --------------------------------------------------------- effective key

  function FirstCarried(elements: seq<Value>, candidates: seq<string>): Option<string>
    decreases |candidates|
  {
    if candidates == [] then None
    else if exists e :: e in elements && Walked(e, Split(candidates[0])).Some? then Some(candidates[0])
    else FirstCarried(elements, candidates[1..])
  }

  lemma {:induction false} FirstCarriedIs(elements: seq<Value>, candidates: seq<string>, i: nat)
    requires i < |candidates| && exists e :: e in elements && Walked(e, Split(candidates[i])).Some?
    requires forall j, e | 0 <= j < i && e in elements :: Walked(e, Split(candidates[j])).None?
    ensures FirstCarried(elements, candidates) == Some(candidates[i])
    decreases i
  {
    if i > 0 {
      var rest := candidates[1..];
      assert rest[i - 1] == candidates[i];
      forall j, e | 0 <= j < i - 1 && e in elements ensures Walked(e, Split(rest[j])).None? {
        assert rest[j] == candidates[j + 1];
      }
      FirstCarriedIs(elements, rest, i - 1);
    }
  }

  /** The spelling this payload uses for `key`, elements before envelope. */
  function EffectiveKey(elements: seq<Value>, envelope: Value, key: string, groups: seq<seq<string>>): Option<string> {
    var candidates := Spellings(key, groups);
    var inElements := FirstCarried(elements, candidates);
    if inElements.Some? then inElements else FirstCarried([envelope], candidates)
  }

  lemma {:induction false} FirstCarriedIff(elements: seq<Value>, candidates: seq<string>)
    ensures FirstCarried(elements, candidates).Some? <==> AnyCarries(elements, candidates)
    ensures FirstCarried(elements, candidates).Some? ==>
              exists e :: e in elements && Walked(e, Split(FirstCarried(elements, candidates).value)).Some?
    decreases |candidates|
  {
    if candidates != [] {
      FirstCarriedIff(elements, candidates[1..]);
      assert forall c :: c in candidates <==> c == candidates[0] || c in candidates[1..];
      if AnyCarries(elements, candidates) {
        var e :| e in elements && CarriesAny(e, candidates);
        if !CarriesAny(e, candidates[1..]) {
          assert Walked(e, Split(candidates[0])).Some?;
        }
      }
      if exists e :: e in elements && Walked(e, Split(candidates[0])).Some? {
        var e :| e in elements && Walked(e, Split(candidates[0])).Some?;
        assert CarriesAny(e, candidates);
      }
    }
  }

  /** A key has an effective spelling exactly when the gate did not call it absent. */
  lemma EffectiveKeyExists(elements: seq<Value>, envelope: Value, key: string, groups: seq<seq<string>>)
    ensures EffectiveKey(elements, envelope, key, groups).None?
            <==> Classify(elements, envelope, key, groups) == Absent
  {
    var candidates := Spellings(key, groups);
    FirstCarriedIff(elements, candidates);
    FirstCarriedIff([envelope], candidates);
    assert envelope in [envelope];
  }

  /** The spelling in use is the first that some element carries. */
  lemma EffectiveKeyIsFirst(elements: seq<Value>, envelope: Value, key: string, groups: seq<seq<string>>, i: nat)
    requires i < |Spellings(key, groups)| && exists e :: e in elements && Walked(e, Split(Spellings(key, groups)[i])).Some?
    requires forall j, e | 0 <= j < i && e in elements :: Walked(e, Split(Spellings(key, groups)[j])).None?
    ensures EffectiveKey(elements, envelope, key, groups) == Some(Spellings(key, groups)[i])
  {
    hide Spellings, Walked, Split;
    FirstCarriedIs(elements, Spellings(key, groups), i);
  }
}
