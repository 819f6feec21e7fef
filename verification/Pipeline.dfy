/**
 The element pipeline, read on the elements themselves: which of them come out,
 in which order, and what each comes out as.
 */
module Pipeline {
  import opened Wrappers
  import opened Json
  import opened Texts
  import opened Filter
  import opened StableSort
  import opened Shape
  import opened Surface
  import Request

  /** Every filter of the request keeps `x`. */
  predicate Wanted(s: Request.Surface, x: Value, ctx: Filter.Context) {
    forall i | 0 <= i < |s.filters| :: Matches(s.filters[i], x, ctx)
  }

  /** The text `x` is deduplicated on, if any. */
  function TextFor(s: Request.Surface, x: Value, ctx: Filter.Context): Option<string> {
    if s.dedupeBy.Some? then ScalarAt(x, Split(s.dedupeBy.value), ctx.groups) else None
  }

  /** What `x` is sorted on, if anything. */
  function SortKey(s: Request.Surface, x: Value, ctx: Filter.Context): Option<Value> {
    if s.sort.Some? then Lookup(x, Split(s.sort.value), ctx.groups) else None
  }

  /** The request sorts, on keys that have an order. */
  predicate SortsInOrder(s: Request.Surface, items: seq<Value>, ctx: Filter.Context) {
    s.sort.Some? && Orderly(KeyedValues(Kept(items, s.filters, ctx), Split(s.sort.value), ctx.groups))
  }

  function Ordered(s: Request.Surface, items: seq<Value>, ctx: Filter.Context): seq<Value> {
    var kept := Kept(items, s.filters, ctx);
    if s.sort.Some? then Shape.Sorted(kept, s.sort.value, ctx) else kept
  }

  lemma OrderedContents(s: Request.Surface, items: seq<Value>, ctx: Filter.Context)
    ensures multiset(Ordered(s, items, ctx)) == multiset(Kept(items, s.filters, ctx))
    ensures forall x :: x in Ordered(s, items, ctx) <==> x in items && Wanted(s, x, ctx)
  {
    hide Shape.Sorted, Kept, Matches;
    var kept := Kept(items, s.filters, ctx);
    if s.sort.Some? {
      SortedContents(kept, s.sort.value, ctx);
    }
    SameMembers(Ordered(s, items, ctx), kept);
  }

  /** The pipeline is deduplication, if asked for, of what was ordered. */
  lemma MatchedIs(s: Request.Surface, items: seq<Value>, ctx: Filter.Context) returns (at: seq<nat>)
    ensures var ordered := Ordered(s, items, ctx);
            && Picks(ordered, at, Matched(s, items, ctx))
            && forall i | 0 <= i < |ordered| :: i in at <==>
                 TextFor(s, ordered[i], ctx).None? || forall j | 0 <= j < i :: TextFor(s, ordered[j], ctx) != TextFor(s, ordered[i], ctx)
  {
    var ordered := Ordered(s, items, ctx);
    hide Shape.Sorted, Kept, Ordered;
    if s.dedupeBy.Some? {
      var key := TextAt(Split(s.dedupeBy.value), ctx.groups);
      assert Matched(s, items, ctx) == DedupedFrom(ordered, key, {}) by {
        MatchedOrdered(s, items, ctx);
      }
      at := DedupedInOrder(ordered, key, {});
      hide Picks, DedupedFrom, Matched;
      forall i | 0 <= i < |ordered|
        ensures i in at <==>
                TextFor(s, ordered[i], ctx).None? || forall j | 0 <= j < i :: TextFor(s, ordered[j], ctx) != TextFor(s, ordered[i], ctx)
      {
        assert i in at <==> IsFirst(ordered, key, {}, i);
        assert forall j | 0 <= j < |ordered| :: key(ordered[j]) == TextFor(s, ordered[j], ctx);
      }
    } else {
      MatchedOrdered(s, items, ctx);
      at := seq(|ordered|, i => i);
      assert forall i | 0 <= i < |ordered| :: at[i] == i && at[i] in at;
    }
  }

  lemma MatchedOrdered(s: Request.Surface, items: seq<Value>, ctx: Filter.Context)
    ensures Matched(s, items, ctx) ==
            if s.dedupeBy.Some? then DedupedFrom(Ordered(s, items, ctx), TextAt(Split(s.dedupeBy.value), ctx.groups), {})
            else Ordered(s, items, ctx)
  {
    hide Shape.Sorted, Kept, DedupedFrom;
  }

  /** Only elements of the input that every filter keeps, and without deduplication exactly those. */
  lemma MatchesAreWanted(s: Request.Surface, items: seq<Value>, ctx: Filter.Context)
    ensures forall x | x in Matched(s, items, ctx) :: x in items && Wanted(s, x, ctx)
    ensures s.dedupeBy.None? ==> multiset(Matched(s, items, ctx)) == multiset(Kept(items, s.filters, ctx))
  {
    hide Wanted, Kept, Ordered;
    var at := MatchedIs(s, items, ctx);
    MatchedOrdered(s, items, ctx);
    OrderedContents(s, items, ctx);
    var ordered, m := Ordered(s, items, ctx), Matched(s, items, ctx);
    hide Matched;
    forall x | x in m ensures x in ordered {
      var i :| 0 <= i < |m| && m[i] == x;
      assert ordered[at[i]] in ordered;
    }
  }

  lemma OrderedReads(s: Request.Surface, items: seq<Value>, ctx: Filter.Context, i: nat, j: nat)
    requires SortsInOrder(s, items, ctx) && i <= j < |Ordered(s, items, ctx)|
    ensures var ordered := Ordered(s, items, ctx); NotAfter(SortKey(s, ordered[i], ctx), SortKey(s, ordered[j], ctx))
  {
    hide NotAfter, Orderly, Shape.Sorted, Kept;
    var ordered := Ordered(s, items, ctx);
    if i < j {
      SortedReads(Kept(items, s.filters, ctx), s.sort.value, ctx, i, j);
    } else {
      NotAfterItself(SortKey(s, ordered[i], ctx));
    }
  }

  lemma NotAfterItself(a: Option<Value>)
    ensures NotAfter(a, a)
  {
    ComparedIsNotAfter(a, a);
  }

  /** On orderly keys the matches come in the order of what they are sorted on. */
  lemma MatchesAreOrdered(s: Request.Surface, items: seq<Value>, ctx: Filter.Context, i: nat, j: nat)
    requires SortsInOrder(s, items, ctx) && i < j < |Matched(s, items, ctx)|
    ensures var m := Matched(s, items, ctx); NotAfter(SortKey(s, m[i], ctx), SortKey(s, m[j], ctx))
  {
    hide NotAfter, Matched, Ordered, SortsInOrder, SortKey, TextFor;
    var at := MatchedIs(s, items, ctx);
    OrderedReads(s, items, ctx, at[i], at[j]);
  }

  /** No two matches share a text they are deduplicated on. */
  lemma MatchesAreDistinct(s: Request.Surface, items: seq<Value>, ctx: Filter.Context, i: nat, j: nat)
    requires i < j < |Matched(s, items, ctx)|
    ensures var m := Matched(s, items, ctx); TextFor(s, m[i], ctx).Some? ==> TextFor(s, m[i], ctx) != TextFor(s, m[j], ctx)
  {
    hide Matched, Ordered, TextFor;
    var at := MatchedIs(s, items, ctx);
    assert at[j] in at && at[i] < at[j];
  }

  /** Whoever is wanted is there, or is stood in for by a match with the same text that sorts no later. */
  lemma BestSurvives(s: Request.Surface, items: seq<Value>, ctx: Filter.Context, x: Value) returns (r: Value)
    requires x in items && Wanted(s, x, ctx)
    ensures r in Matched(s, items, ctx) && TextFor(s, r, ctx) == TextFor(s, x, ctx)
    ensures TextFor(s, x, ctx).None? ==> r == x
    ensures SortsInOrder(s, items, ctx) ==> NotAfter(SortKey(s, r, ctx), SortKey(s, x, ctx))
  {
    hide Matched, Ordered, TextFor, SortsInOrder, SortKey, NotAfter, Wanted;
    var ordered := Ordered(s, items, ctx);
    OrderedContents(s, items, ctx);
    var at := MatchedIs(s, items, ctx);
    var q :| 0 <= q < |ordered| && ordered[q] == x;
    var p := q;
    if TextFor(s, x, ctx).Some? {
      p := FirstOfText(ordered, y => TextFor(s, y, ctx), q);
      assert TextFor(s, ordered[p], ctx) == TextFor(s, x, ctx);
      assert forall j | 0 <= j < p :: TextFor(s, ordered[j], ctx) != TextFor(s, ordered[p], ctx);
    }
    assert p in at;
    var i :| 0 <= i < |at| && at[i] == p;
    r := Matched(s, items, ctx)[i];
    assert r == ordered[p];
    if SortsInOrder(s, items, ctx) {
      OrderedReads(s, items, ctx, p, q);
    }
  }

  /** Without sorting the matches keep the order of the input, the first of each text standing. */
  lemma UnsortedInOrder(s: Request.Surface, items: seq<Value>, ctx: Filter.Context) returns (at: seq<nat>)
    requires s.sort.None?
    ensures Picks(items, at, Matched(s, items, ctx))
  {
    hide Matched, TextFor, Kept;
    var inner := MatchedIs(s, items, ctx);
    var outer := KeptInOrder(items, s.filters, ctx);
    at := PicksTwice(items, outer, Kept(items, s.filters, ctx), inner, Matched(s, items, ctx));
  }

  lemma PicksTwice<T>(items: seq<T>, outer: seq<nat>, middle: seq<T>, inner: seq<nat>, picked: seq<T>) returns (at: seq<nat>)
    requires Picks(items, outer, middle) && Picks(middle, inner, picked)
    ensures Picks(items, at, picked)
  {
    at := seq(|inner|, i requires 0 <= i < |inner| => outer[inner[i]]);
  }

  /** What comes out: as many matches as the cap allows, the first ones, each projected. */
  lemma EmittedReads(s: Request.Surface, items: seq<Value>, ctx: Filter.Context)
    ensures var m, out := Matched(s, items, ctx), Emitted(s, items, ctx);
            && |out| == (if 0 < s.maxItems < |m| then s.maxItems else |m|)
            && forall i | 0 <= i < |out| :: out[i] == ProjectOne(m[i], s.select, ctx.groups)
  {
    hide Matched, ProjectOne;
  }
}
