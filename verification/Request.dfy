/** The resolved output-shaping request of one process. */
module Request {
  import opened Wrappers
  import opened Filter
  import opened Universe

  /** `command`, `mutates`, `allowUnknownKeys`, `filterScope`, `streamed` and
      `writesReceipt` are context; every other field is a knob. */
  datatype Surface = Surface(
    command: Option<string>,
    mutates: bool,
    allowUnknownKeys: bool,
    filterScope: Option<FilterScope>,
    select: seq<string>,
    filters: seq<FilterExpr>,
    sort: Option<string>,
    dedupeBy: Option<string>,
    maxItems: nat,
    countOnly: bool,
    streamed: bool,
    writesReceipt: bool,
    truncateContent: nat,
    maxOutputBytes: nat)
  {
    predicate IsNoop() {
      && select == [] && filters == [] && sort.None? && dedupeBy.None?
      && maxItems == 0 && !countOnly && truncateContent == 0 && maxOutputBytes == 0
    }

    /** The predicates are what parsing makes of `raws`. */
    predicate ReadFrom(raws: seq<string>) {
      |raws| == |filters| && forall i | 0 <= i < |raws| :: Filter.Parsed(raws[i]) == Ok(filters[i])
    }

    /** Every predicate path is one `FilterExpr` parsing can produce. */
    predicate Parsed() {
      forall i | 0 <= i < |filters| ::
        filters[i].path != [] && forall j | 0 <= j < |filters[i].path| :: '.' !in filters[i].path[j]
    }
  }
}
