/** Filter expressions, and the one accessor every shaping knob reads the payload through. */
module Filter {
  import opened Wrappers
  import opened Json
  import opened Texts
  import StableSort

  datatype Op = Equals | NotEquals | Contains

  datatype FilterExpr = FilterExpr(path: seq<string>, op: Op, value: string) {
    /** The path joined by dots again. */
    function Key(): string {
      Join(path)
    }
  }

  datatype ParseError = NoOperator | EmptyKey

  // --------------------------------------------------------------- parsing

  datatype Separator = Separator(token: string, op: Op)

  const SEPARATORS := [Separator("!=", NotEquals), Separator("==", Equals), Separator("~", Contains), Separator("=", Equals)]

  /** The operator that starts at `i`, longest first. */
  function OperatorAt(raw: string, i: nat): (r: Option<Separator>)
    ensures r.Some? ==> r.value in SEPARATORS && i + |r.value.token| <= |raw|
  {
    if i >= |raw| then None
    else if raw[i] == '!' && i + 1 < |raw| && raw[i + 1] == '=' then Some(SEPARATORS[0])
    else if raw[i] == '=' && i + 1 < |raw| && raw[i + 1] == '=' then Some(SEPARATORS[1])
    else if raw[i] == '~' then Some(SEPARATORS[2])
    else if raw[i] == '=' then Some(SEPARATORS[3])
    else None
  }

  lemma TokenAt(raw: string, i: nat, sep: Separator)
    requires sep in SEPARATORS
    ensures StartsAt(raw, i, sep.token) ==> OperatorAt(raw, i).Some?
    ensures OperatorAt(raw, i) == Some(sep) ==> StartsAt(raw, i, sep.token)
    ensures StartsAt(raw, i, sep.token) && OperatorAt(raw, i) != Some(sep) ==>
              |OperatorAt(raw, i).value.token| > |sep.token|
  {
    if StartsAt(raw, i, sep.token) {
      assert forall k | 0 <= k < |sep.token| :: raw[i + k] == raw[i..i + |sep.token|][k] == sep.token[k];
    }
  }

  /** First position at or after `i` where some operator starts. */
  function FirstOperator(raw: string, i: nat): (r: Option<nat>)
    requires i <= |raw|
    ensures r.Some? ==> i <= r.value <= |raw| && OperatorAt(raw, r.value).Some?
    ensures r.Some? ==> forall j | i <= j < r.value :: OperatorAt(raw, j).None?
    ensures r.None? ==> forall j | i <= j <= |raw| :: OperatorAt(raw, j).None?
    decreases |raw| - i
  {
    if OperatorAt(raw, i).Some? then Some(i)
    else if i == |raw| then None
    else FirstOperator(raw, i + 1)
  }

  /** The grammar: cut at the first operator, read left to right. */
  function Parsed(raw: string): Result<FilterExpr, ParseError> {
    match FirstOperator(raw, 0)
    case None => Err(NoOperator)
    case Some(i) =>
      var sep := OperatorAt(raw, i).value;
      var key := Trim(raw[..i]);
      if key == "" then Err(EmptyKey)
      else Ok(FilterExpr(Split(key), sep.op, raw[i + |sep.token|..]))
  }

  datatype Best = Best(at: nat, sep: Separator)

  ghost predicate BestOf(raw: string, n: nat, best: Option<Best>)
    requires n <= |SEPARATORS|
  {
    && (best.None? ==> forall t | 0 <= t < n :: FindFrom(raw, 0, SEPARATORS[t].token).None?)
    && (best.Some? ==>
          && best.value.sep in SEPARATORS
          && FindFrom(raw, 0, best.value.sep.token) == Some(best.value.at)
          && forall t | 0 <= t < n :: FindFrom(raw, 0, SEPARATORS[t].token).Some? ==>
               var j := FindFrom(raw, 0, SEPARATORS[t].token).value;
               best.value.at < j || (best.value.at == j && |best.value.sep.token| >= |SEPARATORS[t].token|))
  }

  lemma BestIsFirst(raw: string, best: Option<Best>)
    requires BestOf(raw, |SEPARATORS|, best)
    ensures best.None? ==> FirstOperator(raw, 0).None?
    ensures best.Some? ==> FirstOperator(raw, 0) == Some(best.value.at)
    ensures best.Some? ==> OperatorAt(raw, best.value.at) == Some(best.value.sep)
  {
    if best.Some? {
      TokenAt(raw, best.value.at, best.value.sep);
    }
    if FirstOperator(raw, 0).Some? {
      var i := FirstOperator(raw, 0).value;
      var t :| 0 <= t < 4 && SEPARATORS[t] == OperatorAt(raw, i).value;
      TokenAt(raw, i, SEPARATORS[t]);
      var found := FindFrom(raw, 0, SEPARATORS[t].token);
      TokenAt(raw, found.value, SEPARATORS[t]);
    }
  }

  function KeepBetter(best: Option<Best>, found: Option<nat>, sep: Separator): Option<Best> {
    if found.None? then best
    else if best.None? || found.value < best.value.at
            || (found.value == best.value.at && |sep.token| > |best.value.sep.token|) then
      Some(Best(found.value, sep))
    else best
  }

  lemma KeepBetterStep(raw: string, t: nat, best: Option<Best>)
    requires t < |SEPARATORS| && BestOf(raw, t, best)
    ensures BestOf(raw, t + 1, KeepBetter(best, FindFrom(raw, 0, SEPARATORS[t].token), SEPARATORS[t]))
  {
  }

  /** Tries the four separators and keeps the earliest, then the longest. */
  method Parse(raw: string) returns (r: Result<FilterExpr, ParseError>)
    ensures r == Parsed(raw)
  {
    var best: Option<Best> := None;
    for t := 0 to |SEPARATORS|
      invariant BestOf(raw, t, best)
    {
      KeepBetterStep(raw, t, best);
      best := KeepBetter(best, FindFrom(raw, 0, SEPARATORS[t].token), SEPARATORS[t]);
    }
    BestIsFirst(raw, best);
    if best.None? {
      return Err(NoOperator);
    }
    var at, sep := best.value.at, best.value.sep;
    var key := Trim(raw[..at]);
    if key == "" {
      return Err(EmptyKey);
    }
    TokenAt(raw, at, sep);
    return Ok(FilterExpr(Split(key), sep.op, raw[at + |sep.token|..]));
  }

  predicate Printable(key: string, sep: Separator, value: string) {
    && key != "" && Trim(key) == key
    && '=' !in key && '~' !in key
    && (sep.op == Equals ==> key[|key| - 1] != '!')
    && (sep.token == "=" ==> value == "" || value[0] != '=')
  }

  /** Parsing inverts printing exactly for the keys and values the grammar can tell apart. */
  lemma ParseInvertsPrint(key: string, sep: Separator, value: string)
    requires sep in SEPARATORS
    ensures Parsed(key + sep.token + value) == Ok(FilterExpr(Split(key), sep.op, value))
            <==> Printable(key, sep, value)
  {
    var raw := key + sep.token + value;
    TrimShrinks(key);
    if Printable(key, sep, value) {
      PrintedOperator(key, sep, value);
      assert raw[..|key|] == key;
      assert raw[|key| + |sep.token|..] == value;
    } else if Parsed(raw) == Ok(FilterExpr(Split(key), sep.op, value)) {
      UnprintableKey(key, sep, value);
    }
  }

  lemma PrintedOperator(key: string, sep: Separator, value: string)
    requires sep in SEPARATORS && Printable(key, sep, value)
    ensures var raw := key + sep.token + value;
            FirstOperator(raw, 0) == Some(|key|) && OperatorAt(raw, |key|) == Some(sep)
  {
    var raw := key + sep.token + value;
    assert raw[|key|] == sep.token[0];
    assert |sep.token| == 2 ==> raw[|key| + 1] == sep.token[1];
    assert sep.token == "=" && value != "" ==> raw[|key| + 1] == value[0];
    assert OperatorAt(raw, |key|) == Some(sep);
    forall j | 0 <= j < |key| ensures OperatorAt(raw, j).None? {
      assert raw[j] == key[j];
      assert raw[j] != '=' && raw[j] != '~';
      assert j + 1 < |key| ==> raw[j + 1] == key[j + 1];
    }
  }

  lemma KeyIsTheCut(raw: string, key: string, op: Op, value: string)
    requires Parsed(raw) == Ok(FilterExpr(Split(key), op, value))
    ensures var i := FirstOperator(raw, 0).value;
            var at := OperatorAt(raw, i).value;
            && Trim(raw[..i]) == key && key != "" && |key| <= i
            && at.op == op && |raw| == i + |at.token| + |value|
  {
    var i := FirstOperator(raw, 0).value;
    JoinSplit(Trim(raw[..i]));
    JoinSplit(key);
    TrimShrinks(raw[..i]);
  }

  /** If parsing returned the printed parts, the cut was made right after the key. */
  lemma CutAfterKey(raw: string, key: string, sep: Separator, value: string, i: nat)
    requires sep in SEPARATORS && raw == key + sep.token + value
    requires FirstOperator(raw, 0) == Some(i) && |key| <= i
    requires |raw| == i + |OperatorAt(raw, i).value.token| + |value|
    ensures i == |key| && OperatorAt(raw, |key|) == Some(sep) && raw[..i] == key
  {
    assert StartsAt(raw, |key|, sep.token);
    TokenAt(raw, |key|, sep);
  }

  lemma UnprintableKey(key: string, sep: Separator, value: string)
    requires sep in SEPARATORS
    requires Parsed(key + sep.token + value) == Ok(FilterExpr(Split(key), sep.op, value))
    ensures Printable(key, sep, value)
  {
    var raw := key + sep.token + value;
    KeyIsTheCut(raw, key, sep.op, value);
    CutAfterKey(raw, key, sep, value, FirstOperator(raw, 0).value);
    forall j | 0 <= j < |key| ensures key[j] != '=' && key[j] != '~' {
      assert raw[j] == key[j];
      assert OperatorAt(raw, j).None?;
    }
    assert raw[|key|] == sep.token[0];
    assert OperatorAt(raw, |key| - 1).None? && raw[|key| - 1] == key[|key| - 1];
    assert sep.token == "=" && value != "" ==> raw[|key| + 1] == value[0];
  }

  /** Parsing yields a path of at least one segment, none with a dot. */
  lemma ParsedPathIsDotless(raw: string)
    requires Parsed(raw).Ok?
    ensures var path := Parsed(raw).value.path; path != [] && forall j | 0 <= j < |path| :: Dotless(path[j])
  {
    SplitSegmentsDotless(Trim(raw[..FirstOperator(raw, 0).value]));
  }

  // ---------------------------------------------------------------- lookup

  /** One synonym group of the field table, and the commands it holds for (none listed: all). */
  datatype Group = Group(commands: seq<string>, spellings: seq<string>)

  const SHIPPED_SYNONYMS := [Group([], ["entity_type", "type"]), Group(["graph"], ["kind", "entity_type", "type"])]

  /** The groups in force for `command`, in table order. */
  function GroupsFor(table: seq<Group>, command: Option<string>): (groups: seq<seq<string>>)
    ensures forall g :: g in groups <==>
              exists e :: e in table && e.spellings == g
                          && (e.commands == [] || (command.Some? && command.value in e.commands))
  {
    if table == [] then []
    else
      var e := table[0];
      var rest := GroupsFor(table[1..], command);
      assert forall x :: x in table <==> x == e || x in table[1..];
      if e.commands == [] || (command.Some? && command.value in e.commands) then [e.spellings] + rest else rest
  }

  predicate NoDots(groups: seq<seq<string>>) {
    forall i, j | 0 <= i < |groups| && 0 <= j < |groups[i]| :: Dotless(groups[i][j])
  }

  /** Follows `path` one member at a time. */
  function Walked(v: Value, path: seq<string>): Option<Value>
    decreases |path|
  {
    if path == [] then Some(v)
    else if !v.Obj? || Get(v.members, path[0]).None? then None
    else Walked(Get(v.members, path[0]).value, path[1..])
  }

  method Walk(v: Value, path: seq<string>) returns (r: Option<Value>)
    ensures r == Walked(v, path)
  {
    var cursor := v;
    for i := 0 to |path|
      invariant Walked(cursor, path[i..]) == Walked(v, path)
    {
      if !cursor.Obj? || Get(cursor.members, path[i]).None? {
        return None;
      }
      cursor := Get(cursor.members, path[i]).value;
    }
    return Some(cursor);
  }

  function AddSpellings(out: seq<string>, leaf: string, group: seq<string>): seq<string>
    decreases |group|
  {
    if group == [] then out
    else
      AddSpellings(if group[0] != leaf && group[0] !in out then out + [group[0]] else out, leaf, group[1..])
  }

  function AddGroups(out: seq<string>, leaf: string, groups: seq<seq<string>>): seq<string>
    decreases |groups|
  {
    if groups == [] then out
    else AddGroups(if leaf in groups[0] then AddSpellings(out, leaf, groups[0]) else out, leaf, groups[1..])
  }

  /** Sibling spellings of `leaf`, in table order, each once. */
  function Synonyms(leaf: string, groups: seq<seq<string>>): seq<string> {
    AddGroups([], leaf, groups)
  }

  predicate Distinct(texts: seq<string>) {
    forall i, j | 0 <= i < j < |texts| :: texts[i] != texts[j]
  }

  lemma DistinctSnoc(texts: seq<string>, s: string)
    requires Distinct(texts) && s !in texts
    ensures Distinct(texts + [s])
  {
  }

  lemma {:induction false} AddSpellingsIff(out: seq<string>, leaf: string, group: seq<string>, s: string)
    requires Distinct(out)
    ensures s in AddSpellings(out, leaf, group) <==> s in out || (s != leaf && s in group)
    ensures Distinct(AddSpellings(out, leaf, group))
    decreases |group|
  {
    if group != [] {
      assert group == [group[0]] + group[1..];
      if group[0] != leaf && group[0] !in out {
        DistinctSnoc(out, group[0]);
        AddSpellingsIff(out + [group[0]], leaf, group[1..], s);
      } else {
        AddSpellingsIff(out, leaf, group[1..], s);
      }
    }
  }

  /** Some group in force names both. */
  predicate Siblings(leaf: string, s: string, groups: seq<seq<string>>) {
    s != leaf && exists i | 0 <= i < |groups| :: leaf in groups[i] && s in groups[i]
  }

  lemma SiblingsCons(leaf: string, s: string, groups: seq<seq<string>>)
    requires groups != []
    ensures Siblings(leaf, s, groups) <==> (s != leaf && leaf in groups[0] && s in groups[0]) || Siblings(leaf, s, groups[1..])
  {
    if i :| 0 <= i < |groups| && leaf in groups[i] && s in groups[i] && i > 0 {
      assert groups[1..][i - 1] == groups[i];
    }
    if i :| 0 <= i < |groups[1..]| && leaf in groups[1..][i] && s in groups[1..][i] {
      assert groups[i + 1] == groups[1..][i];
    }
  }

  lemma {:induction false} AddGroupsIff(out: seq<string>, leaf: string, groups: seq<seq<string>>, s: string)
    requires Distinct(out)
    ensures s in AddGroups(out, leaf, groups) <==> s in out || Siblings(leaf, s, groups)
    ensures Distinct(AddGroups(out, leaf, groups))
    decreases |groups|
  {
    if groups != [] {
      AddSpellingsIff(out, leaf, groups[0], s);
      SiblingsCons(leaf, s, groups);
      hide Siblings, Distinct;
      AddGroupsIff(if leaf in groups[0] then AddSpellings(out, leaf, groups[0]) else out, leaf, groups[1..], s);
    }
  }

  /** The synonyms of a leaf are exactly the other names of the groups it is in, each once. */
  lemma SynonymsIff(leaf: string, groups: seq<seq<string>>, s: string)
    ensures s in Synonyms(leaf, groups) <==> Siblings(leaf, s, groups)
    ensures Distinct(Synonyms(leaf, groups))
  {
    AddGroupsIff([], leaf, groups, s);
  }

  method SynonymsOf(leaf: string, groups: seq<seq<string>>) returns (out: seq<string>)
    ensures out == Synonyms(leaf, groups) && Distinct(out)
    ensures forall s :: s in out <==> Siblings(leaf, s, groups)
  {
    out := [];
    for i := 0 to |groups|
      invariant AddGroups(out, leaf, groups[i..]) == Synonyms(leaf, groups)
    {
      var group := groups[i];
      if leaf in group {
        ghost var before := out;
        for j := 0 to |group|
          invariant AddSpellings(out, leaf, group[j..]) == AddSpellings(before, leaf, group)
        {
          if group[j] != leaf && group[j] !in out {
            out := out + [group[j]];
          }
        }
      }
    }
    hide Distinct, Siblings;
    forall s ensures (s in out <==> Siblings(leaf, s, groups)) && Distinct(out) {
      SynonymsIff(leaf, groups, s);
    }
    SynonymsIff(leaf, groups, "");
  }

  /** The first of `spellings` that resolves under `prefix`. */
  function FirstWalked(v: Value, prefix: seq<string>, spellings: seq<string>): Option<Value>
    decreases |spellings|
  {
    if spellings == [] then None
    else if Walked(v, prefix + [spellings[0]]).Some? then Walked(v, prefix + [spellings[0]])
    else FirstWalked(v, prefix, spellings[1..])
  }

  /** The accessor behind `--filter`, `--sort`, `--dedupe-by` and `--select`. */
  function Lookup(v: Value, path: seq<string>, groups: seq<seq<string>>): Option<Value> {
    if Walked(v, path).Some? then Walked(v, path)
    else if path == [] then None
    else
      var last := path[|path| - 1];
      FirstWalked(v, path[..|path| - 1], Synonyms(last, groups))
  }

  lemma {:induction false} FirstWalkedSome(v: Value, prefix: seq<string>, spellings: seq<string>)
    ensures FirstWalked(v, prefix, spellings).Some? <==>
            exists s :: s in spellings && Walked(v, prefix + [s]).Some?
  {
    if spellings != [] {
      FirstWalkedSome(v, prefix, spellings[1..]);
      assert forall s :: s in spellings <==> s == spellings[0] || s in spellings[1..];
    }
  }

  /** A key is answered under its own spelling if that resolves, else under the first synonym that does. */
  lemma {:induction false} FirstWalkedIs(v: Value, prefix: seq<string>, spellings: seq<string>, i: nat)
    requires i < |spellings| && Walked(v, prefix + [spellings[i]]).Some?
    requires forall j | 0 <= j < i :: Walked(v, prefix + [spellings[j]]).None?
    ensures FirstWalked(v, prefix, spellings) == Walked(v, prefix + [spellings[i]])
    decreases i
  {
    if i > 0 {
      FirstWalkedIs(v, prefix, spellings[1..], i - 1);
    }
  }

  lemma LookupIs(v: Value, path: seq<string>, groups: seq<seq<string>>)
    requires path != []
    ensures var head, synonyms := path[..|path| - 1], Synonyms(path[|path| - 1], groups);
            && (Walked(v, path).Some? ==> Lookup(v, path, groups) == Walked(v, path))
            && (forall i | 0 <= i < |synonyms| && Walked(v, path).None? && Walked(v, head + [synonyms[i]]).Some?
                           && forall j | 0 <= j < i :: Walked(v, head + [synonyms[j]]).None? ::
                  Lookup(v, path, groups) == Walked(v, head + [synonyms[i]]))
            && (Walked(v, path).None? && (forall i | 0 <= i < |synonyms| :: Walked(v, head + [synonyms[i]]).None?) ==>
                  Lookup(v, path, groups) == None)
  {
    hide Walked, Synonyms;
    var head, synonyms := path[..|path| - 1], Synonyms(path[|path| - 1], groups);
    FirstWalkedSome(v, head, synonyms);
    forall i | 0 <= i < |synonyms| && Walked(v, head + [synonyms[i]]).Some?
               && forall j | 0 <= j < i :: Walked(v, head + [synonyms[j]]).None?
      ensures FirstWalked(v, head, synonyms) == Walked(v, head + [synonyms[i]])
    {
      FirstWalkedIs(v, head, synonyms, i);
    }
  }

  lemma {:induction false} UngroupedHasNoSynonyms(out: seq<string>, leaf: string, groups: seq<seq<string>>)
    requires forall i | 0 <= i < |groups| :: leaf !in groups[i]
    ensures AddGroups(out, leaf, groups) == out
    decreases |groups|
  {
    if groups != [] {
      UngroupedHasNoSynonyms(out, leaf, groups[1..]);
    }
  }

  lemma WalkedOne(v: Value, k: string)
    requires v.Obj?
    ensures Walked(v, [k]) == Get(v.members, k)
  {
    hide Get;
    assert [k][1..] == [];
    if Get(v.members, k).Some? {
      assert Walked(Get(v.members, k).value, []) == Get(v.members, k);
    }
  }

  /** A key in no synonym group is looked up under its own name alone. */
  lemma PlainLookup(v: Value, k: string, groups: seq<seq<string>>)
    requires v.Obj? && Dotless(k) && forall i | 0 <= i < |groups| :: k !in groups[i]
    ensures Lookup(v, Split(k), groups) == Get(v.members, k)
  {
    SplitDotless(k);
    UngroupedHasNoSynonyms([], k, groups);
    WalkedOne(v, k);
    hide Walked, Get, AddGroups;
    assert [k][|[k]| - 1] == k;
    assert FirstWalked(v, [k][..0], []) == None;
  }

  // -------------------------------------------------------------- matching

  /** The text by which scalars are compared; an array or object has none. */
  function ScalarText(v: Value): Option<string> {
    match v
    case Str(s) => Some(s)
    case Int(n) => Some(IntText(n))
    case Dec(text, _) => Some(text)
    case Bool(b) => Some(if b then "true" else "false")
    case Null => Some("")
    case Arr(_) => None
    case Obj(_) => None
  }

  function ScalarAt(v: Value, path: seq<string>, groups: seq<seq<string>>): Option<string> {
    match Lookup(v, path, groups)
    case Some(found) => ScalarText(found)
    case None => None
  }

  /** What shaping depends on besides the request and the payload: synonym groups, case folding, sorting. */
  datatype Context = Context(groups: seq<seq<string>>, fold: string -> string, sorter: Sorter)

  /** Any function that keeps the promises of the standard library's sort. */
  type Sorter = f: ((Value, Value) -> StableSort.Ordering, seq<Value>) -> seq<Value> | StableSort.Sorts(f)
    ghost witness (StableSort.SortSorts<Value>(); StableSort.Sort)

  predicate Matches(expr: FilterExpr, element: Value, ctx: Context) {
    match (expr.op, ScalarAt(element, expr.path, ctx.groups))
    case (Equals, Some(text)) => text == expr.value
    case (Equals, None) => false
    case (NotEquals, Some(text)) => text != expr.value
    case (NotEquals, None) => true
    case (Contains, Some(text)) => FindFrom(ctx.fold(text), 0, ctx.fold(expr.value)).Some?
    case (Contains, None) => false
  }

  predicate MatchesAll(filters: seq<FilterExpr>, element: Value, ctx: Context) {
    forall i | 0 <= i < |filters| :: Matches(filters[i], element, ctx)
  }

  /** `=` and `!=` partition every payload, missing and container values included. */
  lemma EqualsNegatesNotEquals(path: seq<string>, value: string, element: Value, ctx: Context)
    ensures Matches(FilterExpr(path, Equals, value), element, ctx)
            <==> !Matches(FilterExpr(path, NotEquals, value), element, ctx)
  {
  }

  // ------------------------------------------------- what an expression keeps

  /** `raw` is an expression, and it keeps `element`. */
  predicate Keeps(raw: string, element: Value, ctx: Context) {
    Parsed(raw).Ok? && Matches(Parsed(raw).value, element, ctx)
  }

  /** `found` reads as `t`: strings as they are, null as nothing, other scalars by their JSON text. */
  predicate Reads(found: Option<Value>, t: string) {
    found.Some? &&
    match found.value
    case Str(s) => t == s
    case Null => t == ""
    case Arr(_) => false
    case Obj(_) => false
    case other => t == Text(other)
  }

  /** A key no operator can be mistaken in. */
  predicate PlainKey(key: string) {
    key != "" && Trim(key) == key && '=' !in key && '~' !in key && key[|key| - 1] != '!'
  }

  lemma ParsesAs(key: string, token: string, op: Op, value: string)
    requires PlainKey(key)
    requires (token == "=" && op == Equals) || (token == "==" && op == Equals)
             || (token == "!=" && op == NotEquals) || (token == "~" && op == Contains)
    requires token == "=" ==> value == "" || value[0] != '='
    ensures Parsed(key + token + value) == Ok(FilterExpr(Split(key), op, value))
  {
    assert Separator(token, op) in SEPARATORS by {
      assert SEPARATORS[0] in SEPARATORS && SEPARATORS[1] in SEPARATORS && SEPARATORS[2] in SEPARATORS && SEPARATORS[3] in SEPARATORS;
    }
    ParseInvertsPrint(key, Separator(token, op), value);
  }

  /** The texts `k=w`, `k==w`, `k!=w` and `k~w` for a wanted `w`, on an element where `k` reads as `t`: equal, equal,
      different, and containing up to case. Where `k` is missing or has no text, only `!=` keeps the element. */
  lemma ExpressionKeeps(k: string, w: string, element: Value, ctx: Context)
    requires PlainKey(k)
    ensures var found := Lookup(element, Split(k), ctx.groups);
            && (forall t | Reads(found, t) ::
                  && (w == "" || w[0] != '=' ==> (Keeps(k + "=" + w, element, ctx) <==> t == w))
                  && (Keeps(k + "==" + w, element, ctx) <==> t == w)
                  && (Keeps(k + "!=" + w, element, ctx) <==> t != w)
                  && (Keeps(k + "~" + w, element, ctx) <==> exists p: nat :: StartsAt(ctx.fold(t), p, ctx.fold(w))))
            && ((forall t :: !Reads(found, t)) ==>
                  && (w == "" || w[0] != '=' ==> !Keeps(k + "=" + w, element, ctx))
                  && !Keeps(k + "==" + w, element, ctx) && !Keeps(k + "~" + w, element, ctx)
                  && Keeps(k + "!=" + w, element, ctx))
  {
    hide Parsed, Lookup, Split, Matches, Reads, PlainKey, StartsAt;
    MatchesReading(Split(k), w, element, ctx);
    if w == "" || w[0] != '=' {
      ParsesAs(k, "=", Equals, w);
    }
    ParsesAs(k, "==", Equals, w);
    ParsesAs(k, "!=", NotEquals, w);
    ParsesAs(k, "~", Contains, w);
  }

  lemma MatchesReading(path: seq<string>, w: string, element: Value, ctx: Context)
    ensures var found := Lookup(element, path, ctx.groups);
            && (forall t | Reads(found, t) ::
                  && (Matches(FilterExpr(path, Equals, w), element, ctx) <==> t == w)
                  && (Matches(FilterExpr(path, NotEquals, w), element, ctx) <==> t != w)
                  && (Matches(FilterExpr(path, Contains, w), element, ctx)
                      <==> exists p: nat :: StartsAt(ctx.fold(t), p, ctx.fold(w))))
            && ((forall t :: !Reads(found, t)) ==>
                  && !Matches(FilterExpr(path, Equals, w), element, ctx)
                  && !Matches(FilterExpr(path, Contains, w), element, ctx)
                  && Matches(FilterExpr(path, NotEquals, w), element, ctx))
  {
    hide Lookup, ScalarText, Reads, StartsAt;
    var found, text := Lookup(element, path, ctx.groups), ScalarAt(element, path, ctx.groups);
    ReadsAsText(found);
    if text.Some? {
      assert Reads(found, text.value);
      FindsIff(ctx.fold(text.value), ctx.fold(w));
    }
  }

  lemma ReadsAsText(found: Option<Value>)
    ensures forall t :: Reads(found, t) <==> found.Some? && ScalarText(found.value) == Some(t)
  {
  }

  /** On the members of an element: `k` is one of them, or it is not. */
  lemma MemberIsFound(k: string, element: Value, groups: seq<seq<string>>)
    requires Dotless(k) && forall i | 0 <= i < |groups| :: k !in groups[i]
    ensures Lookup(element, Split(k), groups) == if element.Obj? then Get(element.members, k) else None
  {
    if element.Obj? {
      PlainLookup(element, k, groups);
    } else {
      SplitDotless(k);
      UngroupedHasNoSynonyms([], k, groups);
    }
  }
}
