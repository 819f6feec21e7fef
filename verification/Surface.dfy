/**
 The whole surface applied to one envelope: locate the result array, drop its
 aliases, judge the request, reshape the elements, record what was done, and
 enforce the ceilings.
 */
module Surface {
  import opened Wrappers
  import opened Json
  import opened Filter
  import opened Budget
  import opened Universe
  import opened Request
  import opened Gate
  import Shape
  import opened Finalize

  datatype Alias = Alias(command: string, canonical: string, derived: seq<string>)

  const SHIPPED_RESULT_KEYS := ["results", "items", "nodes", "entities", "memories", "hits", "rows", "matches", "data", "types"]

  const SHIPPED_ALIASES := [Alias("list", "items", ["memories"]), Alias("graph", "nodes", ["entities"]),
                            Alias("recall", "results", ["direct_matches", "graph_matches"]),
                            Alias("related", "results", ["related_memories"])]

  /** The declared tables and the case folding the surface runs under. */
  datatype Tables = Tables(resultKeys: seq<string>, aliases: seq<Alias>, synonyms: seq<Group>,
                           fold: string -> string, sorter: Sorter) {
    function Context(s: Request.Surface): Filter.Context {
      Filter.Context(GroupsFor(synonyms, s.command), fold, sorter)
    }
  }

  // ---------------------------------------------------------- the envelope

  /** Schema documents and failure envelopes are never reshaped. */
  predicate IsPassthrough(v: Value) {
    v.Obj? && (Has(v.members, "$schema") || Get(v.members, "error") == Some(Bool(true))
               || Get(v.members, "ok") == Some(Bool(false)))
  }

  predicate HoldsArray(ms: seq<Member>, key: string) {
    Get(ms, key).Some? && Get(ms, key).value.Arr?
  }

  function FirstDeclared(ms: seq<Member>, keys: seq<string>): Option<string> {
    if keys == [] then None
    else if HoldsArray(ms, keys[0]) then Some(keys[0])
    else FirstDeclared(ms, keys[1..])
  }

  function FirstArray(ms: seq<Member>): Option<string> {
    if ms == [] then None
    else if ms[0].value.Arr? then Some(ms[0].key)
    else FirstArray(ms[1..])
  }

  /** The array to reshape: the first declared name that is one, else the first array there is. */
  function Locate(v: Value, resultKeys: seq<string>): Option<string> {
    if !v.Obj? then None
    else if FirstDeclared(v.members, resultKeys).Some? then FirstDeclared(v.members, resultKeys)
    else FirstArray(v.members)
  }

  lemma {:induction false} FirstDeclaredIs(ms: seq<Member>, keys: seq<string>)
    ensures match FirstDeclared(ms, keys)
            case Some(k) => exists i :: 0 <= i < |keys| && keys[i] == k && HoldsArray(ms, k)
                                        && forall j | 0 <= j < i :: !HoldsArray(ms, keys[j])
            case None => forall i | 0 <= i < |keys| :: !HoldsArray(ms, keys[i])
  {
    if keys != [] {
      FirstDeclaredIs(ms, keys[1..]);
      var rest := FirstDeclared(ms, keys[1..]);
      if !HoldsArray(ms, keys[0]) && rest.Some? {
        var i :| 0 <= i < |keys[1..]| && keys[1..][i] == rest.value && HoldsArray(ms, rest.value)
                 && forall j | 0 <= j < i :: !HoldsArray(ms, keys[1..][j]);
        assert keys[i + 1] == rest.value;
        assert forall j | 0 < j < i + 1 :: keys[j] == keys[1..][j - 1];
      } else if HoldsArray(ms, keys[0]) {
        assert 0 <= 0 < |keys| && keys[0] == FirstDeclared(ms, keys).value;
      } else {
        assert forall i | 0 < i < |keys| :: keys[i] == keys[1..][i - 1];
      }
    }
  }

  lemma {:induction false} FirstArrayIs(ms: seq<Member>)
    ensures match FirstArray(ms)
            case Some(k) => exists i :: 0 <= i < |ms| && ms[i].key == k && ms[i].value.Arr?
                                        && forall j | 0 <= j < i :: !ms[j].value.Arr?
            case None => forall i | 0 <= i < |ms| :: !ms[i].value.Arr?
  {
    if ms != [] && !ms[0].value.Arr? {
      FirstArrayIs(ms[1..]);
      if FirstArray(ms[1..]).Some? {
        var i :| 0 <= i < |ms[1..]| && ms[1..][i].key == FirstArray(ms).value && ms[1..][i].value.Arr?
                 && forall j | 0 <= j < i :: !ms[1..][j].value.Arr?;
        assert ms[i + 1] == ms[1..][i];
        assert forall j | 0 < j < i + 1 :: ms[j] == ms[1..][j - 1];
      } else {
        assert forall i | 0 < i < |ms| :: ms[i] == ms[1..][i - 1];
      }
    }
  }

  /** The array reshaped is the first declared name that holds one, else the first array among the members. */
  lemma LocateIs(ms: seq<Member>, resultKeys: seq<string>)
    ensures match Locate(Obj(ms), resultKeys)
            case Some(k) =>
              || (exists i :: 0 <= i < |resultKeys| && resultKeys[i] == k && HoldsArray(ms, k)
                              && forall j | 0 <= j < i :: !HoldsArray(ms, resultKeys[j]))
              || ((forall i | 0 <= i < |resultKeys| :: !HoldsArray(ms, resultKeys[i]))
                  && exists i :: 0 <= i < |ms| && ms[i].key == k && ms[i].value.Arr? && forall j | 0 <= j < i :: !ms[j].value.Arr?)
            case None =>
              && (forall i | 0 <= i < |resultKeys| :: !HoldsArray(ms, resultKeys[i]))
              && (forall i | 0 <= i < |ms| :: !ms[i].value.Arr?)
  {
    hide HoldsArray, FirstDeclared, FirstArray;
    FirstDeclaredIs(ms, resultKeys);
    FirstArrayIs(ms);
  }

  function Remove(ms: seq<Member>, key: string): seq<Member> {
    if Has(ms, key) then ms[..Find(ms, key)] + ms[Find(ms, key) + 1..] else ms
  }

  function RemoveArrays(ms: seq<Member>, keys: seq<string>): seq<Member>
    decreases |keys|
  {
    if keys == [] then ms
    else RemoveArrays(if HoldsArray(ms, keys[0]) then Remove(ms, keys[0]) else ms, keys[1..])
  }

  function RemovedArrays(ms: seq<Member>, keys: seq<string>): seq<string>
    decreases |keys|
  {
    if keys == [] then []
    else if HoldsArray(ms, keys[0]) then [keys[0]] + RemovedArrays(Remove(ms, keys[0]), keys[1..])
    else RemovedArrays(ms, keys[1..])
  }

  lemma RemoveGet(ms: seq<Member>, key: string, k: string)
    requires k != key
    ensures Get(Remove(ms, key), k) == Get(ms, k)
  {
    if Has(ms, key) {
      var i, f := Find(ms, key), Find(ms, k);
      FindIsFirst(ms, k);
      FindIs(Remove(ms, key), k, if f <= i then f else f - 1);
    }
  }

  lemma RemoveKey(ms: seq<Member>, key: string)
    requires Sorted(ms)
    ensures Sorted(Remove(ms, key)) && Get(Remove(ms, key), key) == None
  {
    var rest := Remove(ms, key);
    FindIsFirst(ms, key);
    if Has(ms, key) {
      var i := Find(ms, key);
      forall j | 0 <= j < |rest| ensures rest[j].key != key {
        TextLessTotal(key, key);
        if j >= i {
          assert TextLess(ms[i].key, ms[j + 1].key);
        }
      }
    }
  }

  /** What suppression does to each member, and which names it reports: exactly the derived
      ones that held arrays, once each. */
  lemma {:induction false} SuppressionIff(ms: seq<Member>, derived: seq<string>, k: string)
    requires Sorted(ms)
    ensures Get(RemoveArrays(ms, derived), k) == if k in derived && HoldsArray(ms, k) then None else Get(ms, k)
    ensures k in RemovedArrays(ms, derived) <==> k in derived && HoldsArray(ms, k)
    ensures Distinct(RemovedArrays(ms, derived))
    decreases |derived|
  {
    if derived != [] {
      var first := derived[0];
      assert derived == [first] + derived[1..];
      if HoldsArray(ms, first) {
        RemoveKey(ms, first);
        if k != first {
          RemoveGet(ms, first, k);
        }
        SuppressionIff(Remove(ms, first), derived[1..], k);
        SuppressionIff(Remove(ms, first), derived[1..], first);
      } else {
        SuppressionIff(ms, derived[1..], k);
      }
    }
  }

  /** The names are reported in the order in which they are declared. */
  lemma {:induction false} SuppressionInOrder(ms: seq<Member>, derived: seq<string>) returns (at: seq<nat>)
    ensures Shape.Picks(derived, at, RemovedArrays(ms, derived))
    decreases |derived|
  {
    at := [];
    if derived != [] {
      var held := HoldsArray(ms, derived[0]);
      var rest := if held then Remove(ms, derived[0]) else ms;
      var later := SuppressionInOrder(rest, derived[1..]);
      at := (if held then [0] else []) + Shape.Shifted(later);
      Shape.PicksCons(derived, later, RemovedArrays(rest, derived[1..]), held);
    }
  }

  function DerivedFor(aliases: seq<Alias>, command: Option<string>, key: Option<string>): seq<string> {
    if aliases == [] || command.None? || key.None? then []
    else if aliases[0].command == command.value && aliases[0].canonical == key.value then aliases[0].derived
    else DerivedFor(aliases[1..], command, key)
  }

  predicate IsAliasOf(a: Alias, command: Option<string>, key: Option<string>) {
    command == Some(a.command) && key == Some(a.canonical)
  }

  /** The derived names are those of the first entry for this command and this array. */
  lemma {:induction false} DerivedIs(aliases: seq<Alias>, command: Option<string>, key: Option<string>)
    ensures forall i | 0 <= i < |aliases| && IsAliasOf(aliases[i], command, key)
                       && forall j | 0 <= j < i :: !IsAliasOf(aliases[j], command, key) ::
              DerivedFor(aliases, command, key) == aliases[i].derived
    ensures (forall i | 0 <= i < |aliases| :: !IsAliasOf(aliases[i], command, key)) ==> DerivedFor(aliases, command, key) == []
  {
    if aliases != [] {
      var rest := aliases[1..];
      DerivedIs(rest, command, key);
      assert forall i | 0 < i < |aliases| :: aliases[i] == rest[i - 1];
      assert forall i | 0 <= i < |rest| :: rest[i] == aliases[i + 1];
      forall i | 0 < i < |aliases| && IsAliasOf(aliases[i], command, key) && forall j | 0 <= j < i :: !IsAliasOf(aliases[j], command, key)
        ensures DerivedFor(aliases, command, key) == aliases[i].derived
      {
        assert IsAliasOf(rest[i - 1], command, key);
        assert forall j | 0 <= j < i - 1 :: rest[j] == aliases[j + 1];
        assert !IsAliasOf(aliases[0], command, key);
      }
    }
  }

  /** Drops the arrays that merely restate the one being reshaped. */
  function WithoutAliases(v: Value, derived: seq<string>): Value {
    if v.Obj? then Obj(RemoveArrays(v.members, derived)) else v
  }

  function AliasesRemoved(v: Value, derived: seq<string>): seq<string> {
    if v.Obj? then RemovedArrays(v.members, derived) else []
  }

  // ------------------------------------------------------------ the record

  /** Inserts every member of `more`, in order. */
  function PutAll(ms: seq<Member>, more: seq<Member>): seq<Member>
    decreases |more|
  {
    if more == [] then ms else PutAll(Put(ms, more[0].key, more[0].value), more[1..])
  }

  lemma {:induction false} PutAllKeeps(ms: seq<Member>, more: seq<Member>, k: string)
    requires forall i | 0 <= i < |more| :: more[i].key != k
    ensures Get(PutAll(ms, more), k) == Get(ms, k)
    decreases |more|
  {
    if more != [] {
      GetPut(ms, more[0].key, more[0].value, k);
      PutAllKeeps(Put(ms, more[0].key, more[0].value), more[1..], k);
    }
  }

  lemma {:induction false} PutAllConcat(ms: seq<Member>, a: seq<Member>, b: seq<Member>)
    ensures PutAll(ms, a + b) == PutAll(PutAll(ms, a), b)
    decreases |a|
  {
    if a == [] {
      assert a + b == b;
    } else {
      assert (a + b)[1..] == a[1..] + b;
      PutAllConcat(Put(ms, a[0].key, a[0].value), a[1..], b);
    }
  }

  /** The value of the last member of `ms` under `k`. */
  function LastOf(ms: seq<Member>, k: string): Option<Value> {
    if ms == [] then None
    else if ms[|ms| - 1].key == k then Some(ms[|ms| - 1].value)
    else LastOf(ms[..|ms| - 1], k)
  }

  function Or(a: Option<Value>, b: Option<Value>): Option<Value> {
    if a.Some? then a else b
  }

  lemma {:induction false} LastOfConcat(a: seq<Member>, b: seq<Member>, k: string)
    ensures LastOf(a + b, k) == Or(LastOf(b, k), LastOf(a, k))
    decreases |b|
  {
    if b == [] {
      assert a + b == a;
    } else {
      assert (a + b)[..|a + b| - 1] == a + b[..|b| - 1];
      LastOfConcat(a, b[..|b| - 1], k);
    }
  }

  /** What was inserted last is what is read. */
  lemma {:induction false} GetPutAll(ms: seq<Member>, more: seq<Member>, k: string)
    ensures Get(PutAll(ms, more), k) == Or(LastOf(more, k), Get(ms, k))
    decreases |more|
  {
    if more != [] {
      var last := more[|more| - 1];
      assert more == more[..|more| - 1] + [last];
      PutAllConcat(ms, more[..|more| - 1], [last]);
      PutAllOne(PutAll(ms, more[..|more| - 1]), last.key, last.value);
      GetPut(PutAll(ms, more[..|more| - 1]), last.key, last.value, k);
      GetPutAll(ms, more[..|more| - 1], k);
    }
  }

  lemma LastOfIf(given: bool, key: string, v: Value, k: string)
    ensures LastOf(MemberIf(given, key, v), k) == if given && k == key then Some(v) else None
  {
  }

  predicate Lacks(ms: seq<Member>, k: string) {
    forall i | 0 <= i < |ms| :: ms[i].key != k
  }

  lemma LacksConcat(a: seq<Member>, b: seq<Member>, k: string)
    requires Lacks(a, k) && Lacks(b, k)
    ensures Lacks(a + b, k)
  {
  }

  lemma NoMember(k: string)
    ensures LastOf([], k) == None
  {
  }

  lemma OneMember(key: string, v: Value, k: string)
    ensures LastOf([Member(key, v)], k) == if k == key then Some(v) else None
  {
    assert [Member(key, v)][..0] == [];
  }

  lemma LastOfLacking(ms: seq<Member>, k: string)
    requires Lacks(ms, k)
    ensures LastOf(ms, k) == None
  {
  }

  lemma ThreeMembers(ms: seq<Member>, k: string)
    requires |ms| == 3
    ensures LastOf(ms, k) == if ms[2].key == k then Some(ms[2].value) else if ms[1].key == k then Some(ms[1].value)
                             else if ms[0].key == k then Some(ms[0].value) else None
  {
    var two, one := ms[..2], ms[..1];
    assert two[..1] == one && one[..0] == [];
    assert LastOf(one, k) == if ms[0].key == k then Some(ms[0].value) else None;
  }

  function TextList(keys: seq<string>): (r: Value)
    ensures r.Arr? && |r.items| == |keys| && forall i | 0 <= i < |keys| :: r.items[i] == Str(keys[i])
  {
    Arr(seq(|keys|, i requires 0 <= i < |keys| => Str(keys[i])))
  }

  function TextIf(t: Option<string>): Option<Value> {
    match t case Some(text) => Some(Str(text)) case None => None
  }

  function ListIf(texts: seq<string>): Option<Value> {
    if texts == [] then None else Some(TextList(texts))
  }

  function NumberIf(n: nat): Option<Value> {
    if n == 0 then None else Some(Int(n))
  }

  function FlagOnly(given: bool): Option<Value> {
    if given then Some(Bool(true)) else None
  }

  function MemberIf(given: bool, key: string, v: Value): seq<Member> {
    if given then [Member(key, v)] else []
  }

  lemma PutNone(base: seq<Member>)
    ensures PutAll(base, []) == base
  {
  }

  /** A conditional insertion is one more optional member of the list. */
  lemma InsertIf(base: seq<Member>, soFar: seq<Member>, given: bool, key: string, v: Value)
    ensures PutAll(base, soFar + MemberIf(given, key, v)) ==
            if given then Put(PutAll(base, soFar), key, v) else PutAll(base, soFar)
  {
    if given {
      PutAllConcat(base, soFar, [Member(key, v)]);
      PutAllOne(PutAll(base, soFar), key, v);
    } else {
      assert soFar + [] == soFar;
    }
  }

  lemma PutAllOne(ms: seq<Member>, key: string, v: Value)
    ensures PutAll(ms, [Member(key, v)]) == Put(ms, key, v)
  {
    assert [Member(key, v)][1..] == [];
  }

  /** The members that echo the request and the limit of the query. */
  function RequestMembers(s: Request.Surface, ceiling: Option<QueryCeiling>): seq<Member> {
    MemberIf(s.select != [], "select", TextList(s.select))
    + MemberIf(s.filters != [], "filters", Int(|s.filters|))
    + (if s.sort.Some? then [Member("sort", Str(s.sort.value))] else [])
    + (if s.dedupeBy.Some? then [Member("dedupe_by", Str(s.dedupeBy.value))] else [])
    + MemberIf(s.maxItems > 0, "max_items", Int(s.maxItems))
    + CeilingMembers(ceiling)
  }

  function Record(input: nat, output: nat, more: seq<Member>): seq<Member> {
    PutAll([Member("input_count", Int(input)), Member("output_count", Int(output))], more)
  }

  /** What only the caller of the surface knows: the resolved target and the advice on failed keys. */
  datatype Ambient = Ambient(target: seq<Member>, suggestions: seq<string>, vocabularyPartial: bool)

  function AmbientMembers(ambient: Ambient, removed: seq<string>, findings: Findings, key: Option<string>, declared: bool): seq<Member> {
    ambient.target
    + MemberIf(removed != [], "aliases_removed", TextList(removed))
    + (if findings.unresolved == [] then [] else
         [Member("unresolved_keys", TextList(findings.unresolved)), Member("resolved_keys", TextList(findings.resolved)),
          Member("key_resolution", Str("partial"))]
         + MemberIf(ambient.suggestions != [], "key_suggestions", TextList(ambient.suggestions))
         + MemberIf(ambient.vocabularyPartial, "vocabulary_partial", Bool(true)))
    + MemberIf(key.Some?, "result_array_source", Str(if declared then "declared" else "fallback"))
  }

  // ----------------------------------------------------------- the elements

  /** Every element that satisfied the request: filtered, ordered, deduplicated. */
  function Matched(s: Request.Surface, items: seq<Value>, ctx: Filter.Context): seq<Value> {
    var kept := Shape.Kept(items, s.filters, ctx);
    var sorted := if s.sort.Some? then Shape.Sorted(kept, s.sort.value, ctx) else kept;
    if s.dedupeBy.Some? then Shape.Deduped(sorted, s.dedupeBy.value, ctx.groups) else sorted
  }

  /** What the element pipeline emits: the matched elements, capped and projected. */
  function Emitted(s: Request.Surface, items: seq<Value>, ctx: Filter.Context): seq<Value> {
    Shape.Projected(Shape.Limited(Matched(s, items, ctx), s.maxItems), s.select, ctx.groups)
  }

  predicate Exceeds(m: Member, max: nat) {
    m.value.Arr? && |m.value.items| > max
  }

  function CapMember(m: Member, max: nat): Member {
    if Exceeds(m, max) then Member(m.key, Arr(m.value.items[..max])) else m
  }

  function CapMembers(ms: seq<Member>, max: nat): (r: seq<Member>)
    ensures |r| == |ms|
    ensures forall i | 0 <= i < |ms| :: r[i] == CapMember(ms[i], max)
  {
    if ms == [] then [] else [CapMember(ms[0], max)] + CapMembers(ms[1..], max)
  }

  function CappedKeys(ms: seq<Member>, max: nat): seq<string> {
    if ms == [] then [] else (if Exceeds(ms[0], max) then [ms[0].key] else []) + CappedKeys(ms[1..], max)
  }

  /** `--max-items` on every array member; the primary one is empty while this runs. */
  function Capped(v: Value, max: nat): Value {
    if max == 0 || !v.Obj? then v else Obj(CapMembers(v.members, max))
  }

  function CappedNames(v: Value, max: nat): seq<string> {
    if max == 0 || !v.Obj? then [] else CappedKeys(v.members, max)
  }

  function AddIfExceeds(capped: seq<string>, m: Member, max: nat): seq<string> {
    if Exceeds(m, max) then capped + [m.key] else capped
  }

  lemma CappedKeysStep(capped: seq<string>, ms: seq<Member>, max: nat, i: nat)
    requires i < |ms|
    ensures AddIfExceeds(capped, ms[i], max) + CappedKeys(ms[i + 1..], max) == capped + CappedKeys(ms[i..], max)
  {
    assert ms[i..][1..] == ms[i + 1..];
  }

  /** The first `i` members are capped, the rest untouched. */
  predicate CappedUpTo(was: seq<Member>, ms: seq<Member>, max: nat, i: nat) {
    && |ms| == |was|
    && (forall j | 0 <= j < |was| && j < i :: ms[j] == CapMember(was[j], max))
    && (forall j | i <= j < |was| :: ms[j] == was[j])
  }

  lemma CapNext(was: seq<Member>, ms: seq<Member>, max: nat, i: nat)
    requires i < |was| && CappedUpTo(was, ms, max, i)
    ensures ms[i] == was[i] && CappedUpTo(was, ms[i := CapMember(ms[i], max)], max, i + 1)
  {
  }

  lemma NoCap(was: seq<Member>, max: nat)
    ensures CappedUpTo(was, was, max, 0)
    ensures forall ms | CappedUpTo(was, ms, max, |was|) :: ms == CapMembers(was, max)
  {
  }

  /** Truncates the arrays that exceed the cap and names them in key order. */
  method CapSecondaryArrays(v: Value, max: nat) returns (r: Value, capped: seq<string>)
    ensures r == Capped(v, max)
    ensures capped == CappedNames(v, max)
  {
    r, capped := v, [];
    if max == 0 || !v.Obj? {
      return;
    }
    var ms := v.members;
    NoCap(v.members, max);
    hide CappedUpTo, CappedKeys, CapMembers;
    for i := 0 to |v.members|
      invariant |ms| == |v.members|
      invariant CappedUpTo(v.members, ms, max, i)
      invariant capped + CappedKeys(v.members[i..], max) == CappedKeys(v.members, max)
    {
      CappedKeysStep(capped, v.members, max, i);
      CapNext(v.members, ms, max, i);
      if Exceeds(ms[i], max) {
        capped := capped + [ms[i].key];
        ms := ms[i := Member(ms[i].key, Arr(ms[i].value.items[..max]))];
      } else {
        assert ms[i := ms[i]] == ms;
      }
    }
    CappedKeysEnd(v.members, max);
    r := Obj(ms);
  }

  lemma CappedKeysEnd(ms: seq<Member>, max: nat)
    ensures CappedKeys(ms[|ms|..], max) == []
  {
  }

  /** An array over the cap keeps its first elements and is named; every other member is as it was. */
  lemma {:induction false} CapTells(ms: seq<Member>, max: nat)
    ensures |CapMembers(ms, max)| == |ms|
    ensures forall i | 0 <= i < |ms| ::
              && CapMembers(ms, max)[i].key == ms[i].key
              && CapMembers(ms, max)[i].value ==
                 if ms[i].value.Arr? && |ms[i].value.items| > max then Arr(ms[i].value.items[..max]) else ms[i].value
    ensures forall k :: k in CappedKeys(ms, max) <==>
                        exists i :: 0 <= i < |ms| && ms[i].key == k && ms[i].value.Arr? && |ms[i].value.items| > max
  {
    if ms != [] {
      CapTells(ms[1..], max);
      forall k ensures k in CappedKeys(ms, max) <==>
                       exists i :: 0 <= i < |ms| && ms[i].key == k && ms[i].value.Arr? && |ms[i].value.items| > max
      {
        assert forall i | 0 < i < |ms| :: ms[i] == ms[1..][i - 1];
        assert forall i | 0 <= i < |ms[1..]| :: ms[1..][i] == ms[i + 1];
      }
    }
  }

  // ------------------------------------------------------------ the stages

  /** The payload and its record before the ceilings. */
  datatype Shaped = Shaped(payload: Value, meta: seq<Member>)

  function ShapeItems(s: Request.Surface, envelope: Value, key: Option<string>, items: seq<Value>,
                      ceiling: Option<QueryCeiling>, ctx: Filter.Context, more: seq<Member>): Shaped
  {
    var matched := |Matched(s, items, ctx)|;
    var emitted := Emitted(s, items, ctx);
    if s.countOnly && !s.writesReceipt then
      Shaped(Obj([Member("count", Int(|emitted|))]),
             Record(|items|, |emitted|,
                    RequestMembers(s, ceiling) + [Member("count_only", Bool(true)),
                    Member("count_scope", Str(ScopeOfCount(|emitted|, matched, ceiling).Name()))] + more))
    else
      var capped := CappedNames(envelope, s.maxItems);
      var payload :=
        match key
        case None => Arr(emitted)
        case Some(k) =>
          var e := Capped(envelope, s.maxItems);
          if e.Obj? then Obj(Put(e.members, k, Arr(emitted))) else e;
      Shaped(payload,
             Record(|items|, |emitted|,
                    RequestMembers(s, ceiling) + MemberIf(s.countOnly, "count_only_suppressed", Bool(true))
                    + MemberIf(capped != [], "secondary_capped", TextList(capped)) + more))
  }

  function ShapeScalar(s: Request.Surface, envelope: Value, ceiling: Option<QueryCeiling>,
                       ctx: Filter.Context, more: seq<Member>): Shaped
  {
    if s.countOnly && !s.writesReceipt then
      Shaped(Obj([Member("count", Int(1))]),
             Record(1, 1, RequestMembers(s, ceiling) + [Member("count_only", Bool(true)),
                          Member("count_scope", Str("matched"))] + more))
    else
      Shaped(Shape.ProjectOne(envelope, s.select, ctx.groups),
             Record(1, 1, RequestMembers(s, ceiling) + MemberIf(s.countOnly, "count_only_suppressed", Bool(true)) + more))
  }

  /** The envelope once its aliases are gone, and the address of its result array. */
  datatype Located = Located(value: Value, key: Option<string>, removed: seq<string>)

  function LocateIn(tables: Tables, s: Request.Surface, v: Value): Located {
    var key := Locate(v, tables.resultKeys);
    var derived := DerivedFor(tables.aliases, s.command, key);
    Located(WithoutAliases(v, derived), key, AliasesRemoved(v, derived))
  }

  predicate Declared(tables: Tables, key: Option<string>) {
    key.Some? && key.value in tables.resultKeys
  }

  /** `apply_with_premises` on an envelope the request really reshapes. */
  function Reshaped(tables: Tables, s: Request.Surface, v: Value, ambient: Ambient, ceiling: Option<QueryCeiling>)
    : Result<Shaped, Refusal>
  {
    var located := LocateIn(tables, s, v);
    var ctx := tables.Context(s);
    var key := located.key;
    var items := ArrayAt(located.value, key);
    var rest := WithArray(located.value, key, []);
    var elements := if items.Some? then items.value else [];
    match Evaluate(s, Scope(elements, rest, ctx.groups), Declared(tables, key), items.Some?, ceiling)
    case Err(refusal) => Err(refusal)
    case Ok(findings) =>
      var more := AmbientMembers(ambient, located.removed, findings, key, Declared(tables, key));
      Ok(if items.Some? then ShapeItems(s, rest, key, items.value, ceiling, ctx, more)
         else ShapeScalar(s, rest, ceiling, ctx, more))
  }

  function Apply(tables: Tables, s: Request.Surface, v: Value, ambient: Ambient, ceiling: Option<QueryCeiling>)
    : Result<Value, Refusal>
  {
    if IsPassthrough(v) then Ok(v)
    else if s.IsNoop() then
      Ok(if ambient.target == [] then v else Attach(v, ambient.target, false))
    else
      match Reshaped(tables, s, v, ambient, ceiling)
      case Err(refusal) => Err(refusal)
      case Ok(shaped) =>
        Ok(Finalized(shaped.payload, Locate(v, tables.resultKeys), shaped.meta, s.truncateContent, s.maxOutputBytes))
  }
}
