/** What the query discarded before the surface saw a row. */
module Universe {
  import opened Wrappers
  import opened Json

  datatype FilterScope = Page | WholeUniverse

  datatype CeilingKind = Pagination | TopK {
    function Name(): string {
      match this case Pagination => "pagination" case TopK => "top-k"
    }
  }

  datatype CeilingSource = Flag | Default {
    function Name(): string {
      match this case Flag => "flag" case Default => "default"
    }
  }

  datatype QueryCeiling = QueryCeiling(
    applied: nat, offset: nat, source: CeilingSource, kind: CeilingKind, universeTotal: Option<nat>)
  {
    /** There are rows beyond the limit. */
    predicate TruncatedTheUniverse() {
      offset > 0 || (universeTotal.Some? && applied < universeTotal.value)
    }
  }

  datatype CountScope = PageCount | EmittedCount | MatchedCount {
    function Name(): string {
      match this case PageCount => "page" case EmittedCount => "emitted" case MatchedCount => "matched"
    }
  }

  /** The label of a count; a query limit is decided before a cap of the surface. */
  function ScopeOfCount(output: nat, matched: nat, ceiling: Option<QueryCeiling>): CountScope {
    if ceiling.Some? && ceiling.value.kind == Pagination && ceiling.value.TruncatedTheUniverse() then PageCount
    else if output < matched then EmittedCount
    else MatchedCount
  }

  /** What the label says: rows of the query are missing, or matches were capped away, or neither. */
  lemma ScopeIff(output: nat, matched: nat, ceiling: Option<QueryCeiling>)
    ensures var missing := ceiling.Some? && ceiling.value.kind == Pagination
                           && (ceiling.value.offset > 0 || (ceiling.value.universeTotal.Some?
                                                            && ceiling.value.applied < ceiling.value.universeTotal.value));
            ScopeOfCount(output, matched, ceiling).Name() ==
            if missing then "page" else if output < matched then "emitted" else "matched"
  {
  }

  /** The rows a query returns: skip `offset`, then at most `applied`. */
  function PageOf<T>(universe: seq<T>, ceiling: QueryCeiling): seq<T> {
    var rest := if ceiling.offset <= |universe| then universe[ceiling.offset..] else [];
    if ceiling.applied <= |rest| then rest[..ceiling.applied] else rest
  }

  /** With the total known, a ceiling is silent exactly when the page is the universe. */
  lemma PageIsUniverse<T>(universe: seq<T>, ceiling: QueryCeiling)
    requires ceiling.universeTotal == Some(|universe|)
    ensures !ceiling.TruncatedTheUniverse() ==> PageOf(universe, ceiling) == universe
    ensures universe != [] && PageOf(universe, ceiling) == universe ==> !ceiling.TruncatedTheUniverse()
  {
    if !ceiling.TruncatedTheUniverse() {
      assert universe[0..] == universe;
      assert universe[..|universe|] == universe;
    }
  }

  function ScopeName(ceiling: QueryCeiling): string {
    match ceiling.kind
    case TopK => "top-k"
    case Pagination => if ceiling.TruncatedTheUniverse() then "page" else "universe"
  }

  /** What the query removed, as members of the record. */
  function CeilingMembers(ceiling: Option<QueryCeiling>): seq<Member> {
    if ceiling.None? then []
    else
      var c := ceiling.value;
      [Member("query_limited", Bool(true)), Member("query_limit", Int(c.applied)),
       Member("query_limit_source", Str(c.source.Name())), Member("query_limit_kind", Str(c.kind.Name()))]
      + (if c.universeTotal.Some? then [Member("universe_total", Int(c.universeTotal.value))] else [])
      + [Member("filter_scope", Str(ScopeName(c)))]
      + (if ScopeName(c) == "page" then [Member("filter_incomplete", Bool(true))] else [])
  }
}
