/** Web addresses found in a body by scanning for their schemes. */
module Urls {
  import opened Wrappers
  import opened Texts
  import opened Tokens
  import Json
  import Utf8

  const HTTP := "http://"
  const HTTPS := "https://"

  /** What ends an address: whitespace, a closing bracket, a quote or an opening angle. */
  predicate IsDelimiter(c: char) {
    IsWhitespace(c) || c in {')', ']', '}', '\"', '\'', '<'}
  }

  predicate SchemeAt(body: string, p: nat) {
    StartsAt(body, p, HTTP) || StartsAt(body, p, HTTPS)
  }

  /** Where the next address begins, and the length of its scheme. */
  function NextScheme(body: string, cursor: nat): Option<(nat, nat)>
    requires cursor <= |body|
  {
    match (FindFrom(body, cursor, HTTP), FindFrom(body, cursor, HTTPS))
    case (Some(a), Some(b)) => if a <= b then Some((a, 7)) else Some((b, 8))
    case (Some(a), None) => Some((a, 7))
    case (None, Some(b)) => Some((b, 8))
    case (None, None) => None
  }

  function SchemeOf(n: nat): string {
    if n == 7 then HTTP else HTTPS
  }

  lemma NextSchemeIsFirst(body: string, cursor: nat)
    requires cursor <= |body|
    ensures match NextScheme(body, cursor)
            case Some((a, n)) =>
              && cursor <= a && a + n <= |body| && (n == 7 || n == 8) && StartsAt(body, a, SchemeOf(n))
              && forall p | cursor <= p < a :: !SchemeAt(body, p)
            case None => forall p | cursor <= p <= |body| :: !SchemeAt(body, p)
  {
    assert |HTTP| == 7 && |HTTPS| == 8;
  }

  /** The first delimiter at or after `i`, or the end of the body. */
  function EndFrom(body: string, i: nat): (e: nat)
    requires i <= |body|
    ensures i <= e <= |body|
    decreases |body| - i
  {
    if i == |body| || IsDelimiter(body[i]) then i else EndFrom(body, i + 1)
  }

  lemma {:induction false} EndIsFirstDelimiter(body: string, i: nat)
    requires i <= |body|
    ensures forall j | i <= j < EndFrom(body, i) :: !IsDelimiter(body[j])
    ensures EndFrom(body, i) == |body| || IsDelimiter(body[EndFrom(body, i)])
    decreases |body| - i
  {
    if i < |body| && !IsDelimiter(body[i]) {
      EndIsFirstDelimiter(body, i + 1);
    }
  }

  /** The next address: its scheme, and everything up to the first delimiter. */
  function NextUrl(body: string, cursor: nat): (r: Option<Span>)
    requires cursor <= |body|
    ensures r.Some? ==> cursor <= r.value.0 < r.value.1 <= |body|
  {
    NextSchemeIsFirst(body, cursor);
    match NextScheme(body, cursor)
    case None => None
    case Some((a, n)) => Some((a, EndFrom(body, a + n)))
  }

  /** The addresses at or after `cursor`, as ranges of characters. */
  function SpansFrom(body: string, cursor: nat): seq<Span>
    requires cursor <= |body|
    decreases |body| - cursor
  {
    match NextUrl(body, cursor)
    case None => []
    case Some(s) => [s] + SpansFrom(body, s.1)
  }

  datatype Url = Url(text: string, start: nat, end: nat)

  /** The address over a range of characters, with its byte offsets. */
  function UrlAt(body: string, s: Span): Url {
    Url(if s.0 <= s.1 <= |body| then body[s.0..s.1] else "", At(body, s.0), At(body, s.1))
  }

  function UrlsOf(body: string, spans: seq<Span>): (r: seq<Url>)
    ensures |r| == |spans| && forall k | 0 <= k < |spans| :: r[k] == UrlAt(body, spans[k])
  {
    if spans == [] then [] else [UrlAt(body, spans[0])] + UrlsOf(body, spans[1..])
  }

  // --------------------------------------------------------------- the loop

  /** Walks to the delimiter one character at a time. */
  method FindEnd(body: string, from: nat) returns (end: nat)
    requires from <= |body|
    ensures end == EndFrom(body, from)
  {
    end := from;
    while end < |body| && !IsDelimiter(body[end])
      invariant from <= end <= |body|
      invariant EndFrom(body, end) == EndFrom(body, from)
    {
      end := end + 1;
    }
  }

  lemma UrlsCons(body: string, s: Span, rest: seq<Span>)
    ensures UrlsOf(body, [s] + rest) == [UrlAt(body, s)] + UrlsOf(body, rest)
  {
    hide UrlAt;
    assert ([s] + rest)[1..] == rest;
  }

  lemma SpansStep(body: string, cursor: nat)
    requires cursor <= |body|
    ensures SpansFrom(body, cursor) ==
            match NextUrl(body, cursor) case None => [] case Some(s) => [s] + SpansFrom(body, s.1)
  {
    hide NextUrl;
  }

  lemma UrlsStep(body: string, out: seq<Url>, cursor: nat)
    requires cursor <= |body|
    ensures match NextUrl(body, cursor)
            case None => UrlsOf(body, SpansFrom(body, cursor)) == []
            case Some(s) =>
              out + UrlsOf(body, SpansFrom(body, cursor)) == out + [UrlAt(body, s)] + UrlsOf(body, SpansFrom(body, s.1))
  {
    hide UrlAt, NextUrl, SpansFrom;
    SpansStep(body, cursor);
    match NextUrl(body, cursor) {
      case None =>
      case Some(s) => UrlsCons(body, s, SpansFrom(body, s.1));
    }
  }

  lemma NothingAtEnd(body: string)
    ensures NextUrl(body, |body|).None?
  {
  }

  /** `extract_urls`. */
  method ExtractUrls(body: string) returns (out: seq<Url>)
    ensures out == UrlsOf(body, SpansFrom(body, 0))
  {
    out := [];
    var cursor := 0;
    NothingAtEnd(body);
    UrlsStep(body, out, |body|);
    while cursor < |body|
      invariant cursor <= |body|
      invariant out + UrlsOf(body, SpansFrom(body, cursor)) == UrlsOf(body, SpansFrom(body, 0))
      decreases |body| - cursor
    {
      UrlsStep(body, out, cursor);
      hide SpansFrom, UrlsOf, UrlAt;
      var url := FindNext(body, cursor);
      if url.None? {
        return;
      }
      out := out + [UrlAt(body, url.value)];
      cursor := url.value.1;
    }
  }

  /** One turn of the loop: the nearer scheme, then the walk to its end. */
  method FindNext(body: string, cursor: nat) returns (r: Option<Span>)
    requires cursor <= |body|
    ensures r == NextUrl(body, cursor)
  {
    NextSchemeIsFirst(body, cursor);
    var found := NextScheme(body, cursor);
    if found.None? {
      return None;
    }
    hide NextScheme;
    var end := FindEnd(body, found.value.0 + found.value.1);
    return Some((found.value.0, end));
  }

  // --------------------------------------------------------------- promises

  /** A scheme of `n` characters at `a`, then no delimiter before `e`, and `e` ends the address. */
  predicate IsAddressOf(body: string, a: nat, n: nat, e: nat) {
    && a + n <= e <= |body| && StartsAt(body, a, SchemeOf(n))
    && (forall j | a + n <= j < e :: !IsDelimiter(body[j]))
    && (e == |body| || IsDelimiter(body[e]))
  }

  predicate IsAddress(body: string, s: Span) {
    IsAddressOf(body, s.0, 7, s.1) || IsAddressOf(body, s.0, 8, s.1)
  }

  /** Addresses at or after `from`, in order and disjoint. */
  predicate AddressList(body: string, from: nat, r: seq<Span>) {
    && (forall k | 0 <= k < |r| :: IsAddress(body, r[k]) && from <= r[k].0)
    && (forall j, k | 0 <= j < k < |r| :: r[j].1 <= r[k].0)
  }

  lemma AddressListCons(body: string, from: nat, s: Span, r: seq<Span>)
    requires IsAddress(body, s) && from <= s.0 < s.1 && AddressList(body, s.1, r)
    ensures AddressList(body, from, [s] + r)
  {
    hide IsAddress;
  }

  lemma NextUrlIsAddress(body: string, cursor: nat)
    requires cursor <= |body| && NextUrl(body, cursor).Some?
    ensures IsAddress(body, NextUrl(body, cursor).value)
  {
    NextSchemeIsFirst(body, cursor);
    var (a, n) := NextScheme(body, cursor).value;
    assert NextUrl(body, cursor).value == (a, EndFrom(body, a + n));
    hide NextScheme, SchemeOf;
    EndIsFirstDelimiter(body, a + n);
  }

  /** Every body: the ranges found are whole addresses, in order and disjoint. */
  lemma {:induction false} SpansAreAddresses(body: string, cursor: nat)
    requires cursor <= |body|
    ensures AddressList(body, cursor, SpansFrom(body, cursor))
    decreases |body| - cursor
  {
    hide NextUrl, IsAddress;
    match NextUrl(body, cursor) {
      case None =>
      case Some(s) =>
        NextUrlIsAddress(body, cursor);
        SpansAreAddresses(body, s.1);
        AddressListCons(body, cursor, s, SpansFrom(body, s.1));
    }
  }

  predicate Bounds(body: string, s: Span) {
    s.0 < s.1 <= |body|
  }

  lemma AddressIsBounded(body: string, s: Span)
    requires IsAddress(body, s)
    ensures Bounds(body, s)
  {
    assert |HTTP| == 7 && |HTTPS| == 8;
  }

  /** The bytes between the offsets of an address are the bytes of its text. */
  predicate Delimits(bytes: seq<Utf8.Byte>, url: Url) {
    url.start < url.end <= |bytes| && bytes[url.start..url.end] == Utf8.Encode(url.text)
  }

  lemma AddressIsDelimited(body: string, s: Span)
    requires Bounds(body, s)
    ensures Delimits(Utf8.Encode(body), UrlAt(body, s))
  {
    AtMonotone(body, s.0, s.1);
    Utf8.EncodeSlice(body, s.0, s.1);
    hide Utf8.Encode, Json.ByteLen;
  }

  predicate DelimitAll(body: string, urls: seq<Url>) {
    && (forall k | 0 <= k < |urls| :: Delimits(Utf8.Encode(body), urls[k]))
    && (forall j, k | 0 <= j < k < |urls| :: urls[j].end <= urls[k].start)
  }

  lemma AddressesAreDelimited(body: string, from: nat, spans: seq<Span>)
    requires AddressList(body, from, spans)
    ensures DelimitAll(body, UrlsOf(body, spans))
  {
    var urls := UrlsOf(body, spans);
    hide UrlsOf, Utf8.Encode, IsAddress, Delimits, At;
    forall k | 0 <= k < |urls| ensures Bounds(body, spans[k]) && Delimits(Utf8.Encode(body), urls[k]) {
      AddressIsBounded(body, spans[k]);
      AddressIsDelimited(body, spans[k]);
    }
    forall j, k | 0 <= j < k < |urls| ensures urls[j].end <= urls[k].start {
      assert Bounds(body, spans[k]);
      if spans[j].1 < spans[k].0 {
        AtMonotone(body, spans[j].1, spans[k].0);
      }
    }
  }

  /** The emitted byte offsets delimit their addresses in the encoded body, in order and disjoint. */
  lemma OffsetsDelimitAddresses(body: string)
    ensures DelimitAll(body, UrlsOf(body, SpansFrom(body, 0)))
  {
    hide *;
    SpansAreAddresses(body, 0);
    AddressesAreDelimited(body, 0, SpansFrom(body, 0));
  }

  predicate Inside(s: Span, p: nat) {
    s.0 <= p < s.1
  }

  /** No scheme before the next address. */
  lemma NextUrlIsFirst(body: string, cursor: nat, p: nat)
    requires cursor <= p <= |body| && SchemeAt(body, p)
    ensures NextUrl(body, cursor).Some? && NextUrl(body, cursor).value.0 <= p
  {
    NextSchemeIsFirst(body, cursor);
  }

  /** Every occurrence of a scheme starts inside some range. */
  lemma {:induction false} SchemeIsFound(body: string, cursor: nat, p: nat) returns (k: nat)
    requires cursor <= p <= |body| && SchemeAt(body, p)
    ensures k < |SpansFrom(body, cursor)| && Inside(SpansFrom(body, cursor)[k], p)
    decreases |body| - cursor
  {
    NextUrlIsFirst(body, cursor, p);
    hide NextUrl, SchemeAt;
    var s := NextUrl(body, cursor).value;
    if p < s.1 {
      k := 0;
    } else {
      k := SchemeIsFound(body, s.1, p);
      k := k + 1;
    }
  }

  /** Exactly one. */
  lemma SchemeIsInOneSpan(body: string, p: nat)
    requires p <= |body| && SchemeAt(body, p)
    ensures exists k | 0 <= k < |SpansFrom(body, 0)| :: Inside(SpansFrom(body, 0)[k], p)
    ensures forall j, k | 0 <= j < |SpansFrom(body, 0)| && 0 <= k < |SpansFrom(body, 0)|
                          && Inside(SpansFrom(body, 0)[j], p) && Inside(SpansFrom(body, 0)[k], p) :: j == k
  {
    var k := SchemeIsFound(body, 0, p);
    SpansAreAddresses(body, 0);
    hide SpansFrom, IsAddress;
  }
}
