/**
 JSON values as `serde_json` holds them, their compact text, and the byte length
 of that text.

 Objects are key-sorted member lists: `serde_json` is built without
 `preserve_order`, so its map is a B-tree and iterates in ascending key order.
 */
module Json {
  import opened Wrappers

  /** The text of a number that is not a machine integer. */
  type Decimal = s: string | s != "" witness "0.0"

  /** `Int` and `Dec` are the two renderings of a number: a machine integer, and
      any other number carried with its text and its numeric reading. */
  datatype Value =
    | Null
    | Bool(b: bool)
    | Int(n: int)
    | Dec(text: Decimal, approx: real)
    | Str(s: string)
    | Arr(items: seq<Value>)
    | Obj(members: seq<Member>)

  datatype Member = Member(key: string, value: Value)

  // ---------------------------------------------------------------- text

  function DigitChar(d: nat): char
    requires d < 10
  {
    "0123456789"[d]
  }

  function Digits(n: nat): string {
    if n < 10 then [DigitChar(n)] else Digits(n / 10) + [DigitChar(n % 10)]
  }

  function IntText(n: int): string {
    if n < 0 then "-" + Digits(-n) else Digits(n)
  }

  function HexDigit(d: nat): char
    requires d < 16
  {
    "0123456789abcdef"[d]
  }

  /** The escapes of section 7 of RFC 8259 that a compact writer emits. */
  function EscapeChar(c: char): string {
    if c == '\"' then "\\\""
    else if c == '\\' then "\\\\"
    else if c == '\U{0008}' then "\\b"
    else if c == '\U{000C}' then "\\f"
    else if c == '\n' then "\\n"
    else if c == '\r' then "\\r"
    else if c == '\t' then "\\t"
    else if c < ' ' then "\\u00" + [HexDigit(c as int / 16), HexDigit(c as int % 16)]
    else [c]
  }

  function Escape(s: string): string {
    if s == "" then "" else EscapeChar(s[0]) + Escape(s[1..])
  }

  function Quoted(s: string): string {
    "\"" + Escape(s) + "\""
  }

  /** Compact serialization: sections 4 and 5 of RFC 8259 without whitespace. */
  function Text(v: Value): string
    decreases v, 1
  {
    match v
    case Null => "null"
    case Bool(b) => if b then "true" else "false"
    case Int(n) => IntText(n)
    case Dec(text, _) => text
    case Str(s) => Quoted(s)
    case Arr(items) => "[" + ItemsText(items) + "]"
    case Obj(members) => "{" + MembersText(members) + "}"
  }

  function ItemsText(items: seq<Value>): string
    decreases items, 0
  {
    if |items| == 0 then ""
    else if |items| == 1 then Text(items[0])
    else Text(items[0]) + "," + ItemsText(items[1..])
  }

  function MembersText(members: seq<Member>): string
    decreases members, 0
  {
    if |members| == 0 then ""
    else
      var first := Quoted(members[0].key) + ":" + Text(members[0].value);
      if |members| == 1 then first else first + "," + MembersText(members[1..])
  }

  // -------------------------------------------------------------- lengths

  /** Bytes of one scalar value in UTF-8 (section 3 of RFC 3629). */
  function Utf8Len(c: char): nat {
    if c as int < 0x80 then 1
    else if c as int < 0x800 then 2
    else if c as int < 0x10000 then 3
    else 4
  }

  function ByteLen(s: string): nat {
    if s == "" then 0 else Utf8Len(s[0]) + ByteLen(s[1..])
  }

  /** What `serde_json::to_string(value).len()` measures. */
  function EncodedLen(v: Value): nat {
    ByteLen(Text(v))
  }

  function ItemsLen(items: seq<Value>): nat {
    ByteLen(ItemsText(items))
  }

  function MembersLen(members: seq<Member>): nat {
    ByteLen(MembersText(members))
  }

  function MemberLen(m: Member): nat {
    ByteLen(Quoted(m.key)) + 1 + EncodedLen(m.value)
  }

  function Separator(left: int, right: int): nat {
    if left > 0 && right > 0 then 1 else 0
  }

  lemma {:induction false} ByteLenConcat(a: string, b: string)
    ensures ByteLen(a + b) == ByteLen(a) + ByteLen(b)
  {
    if a == "" {
      assert a + b == b;
    } else {
      assert (a + b)[1..] == a[1..] + b;
      ByteLenConcat(a[1..], b);
    }
  }

  lemma {:induction false} ByteLenAscii(s: string)
    requires forall i | 0 <= i < |s| :: s[i] < '\U{0080}'
    ensures ByteLen(s) == |s|
  {
    if s != "" {
      ByteLenAscii(s[1..]);
    }
  }

  lemma {:induction false} DigitsAscii(n: nat)
    ensures forall i | 0 <= i < |Digits(n)| :: Digits(n)[i] < '\U{0080}'
  {
    if n >= 10 {
      DigitsAscii(n / 10);
    }
  }

  /** Decimal width is monotone, which is what makes a width reservation sound. */
  lemma {:induction false} DigitsMonotone(m: nat, n: nat)
    requires m <= n
    ensures 1 <= |Digits(m)| <= |Digits(n)|
  {
    if n >= 10 {
      DigitsMonotone(if m < 10 then 0 else m / 10, n / 10);
    }
  }

  lemma NatLen(n: nat)
    ensures EncodedLen(Int(n)) == |Digits(n)|
  {
    DigitsAscii(n);
    ByteLenAscii(Digits(n));
  }

  lemma EncodedLenPositive(v: Value)
    ensures EncodedLen(v) > 0
  {
    assert Text(v) != "" by {
      if v.Int? {
        DigitsMonotone(0, if v.n < 0 then -v.n else v.n);
      }
    }
  }

  lemma Concat3(a: string, b: string, c: string)
    ensures ByteLen(a + b + c) == ByteLen(a) + ByteLen(b) + ByteLen(c)
  {
    ByteLenConcat(a + b, c);
    ByteLenConcat(a, b);
  }

  lemma ArrLen(items: seq<Value>)
    ensures EncodedLen(Arr(items)) == 2 + ItemsLen(items)
  {
    Concat3("[", ItemsText(items), "]");
    assert ByteLen("[") == 1 && ByteLen("]") == 1;
  }

  lemma ObjLen(members: seq<Member>)
    ensures EncodedLen(Obj(members)) == 2 + MembersLen(members)
  {
    Concat3("{", MembersText(members), "}");
    assert ByteLen("{") == 1 && ByteLen("}") == 1;
  }

  lemma OneItemLen(x: Value)
    ensures ItemsLen([x]) == EncodedLen(x)
  {
  }

  lemma OneMemberLen(m: Member)
    ensures MembersLen([m]) == MemberLen(m)
  {
    Concat3(Quoted(m.key), ":", Text(m.value));
    assert ByteLen(":") == 1;
  }

  /** Concatenated arrays cost their contents plus the comma between them. */
  lemma {:induction false} ItemsLenConcat(a: seq<Value>, b: seq<Value>)
    ensures ItemsLen(a + b) == ItemsLen(a) + Separator(|a|, |b|) + ItemsLen(b)
  {
    if a == [] {
      assert a + b == b;
    } else if b == [] {
      assert a + b == a;
    } else {
      assert (a + b)[1..] == a[1..] + b;
      ItemsLenConcat(a[1..], b);
      assert ByteLen(",") == 1;
      Concat3(Text(a[0]), ",", ItemsText(a[1..] + b));
      Concat3(Text(a[0]), ",", ItemsText(a[1..]));
    }
  }

  lemma {:induction false} MembersLenConcat(a: seq<Member>, b: seq<Member>)
    ensures MembersLen(a + b) == MembersLen(a) + Separator(|a|, |b|) + MembersLen(b)
  {
    if a == [] {
      assert a + b == b;
    } else if b == [] {
      assert a + b == a;
    } else {
      assert (a + b)[1..] == a[1..] + b;
      MembersLenConcat(a[1..], b);
      assert ByteLen(",") == 1;
      var first := Quoted(a[0].key) + ":" + Text(a[0].value);
      Concat3(first, ",", MembersText(a[1..] + b));
      Concat3(first, ",", MembersText(a[1..]));
    }
  }

  /** Putting `m` between `a` and `b` costs its own text and one comma if anything is beside it. */
  lemma MembersLenAround(a: seq<Member>, m: Member, b: seq<Member>)
    ensures MembersLen(a + [m] + b) ==
            MembersLen(a + b) + MemberLen(m) + (if a + b == [] then 0 else 1)
  {
    MembersLenConcat(a + [m], b);
    MembersLenConcat(a, [m]);
    MembersLenConcat(a, b);
    OneMemberLen(m);
  }

  lemma MembersLenReplace(ms: seq<Member>, i: nat, v: Value)
    requires i < |ms|
    ensures MembersLen(ms[i := Member(ms[i].key, v)]) + EncodedLen(ms[i].value) ==
            MembersLen(ms) + EncodedLen(v)
  {
    var a, b := ms[..i], ms[i + 1..];
    MembersLenAround(a, ms[i], b);
    MembersLenAround(a, Member(ms[i].key, v), b);
    assert ms == a + [ms[i]] + b;
    assert ms[i := Member(ms[i].key, v)] == a + [Member(ms[i].key, v)] + b;
  }

  // -------------------------------------------------------------- objects

  /** Position of `key`, or the number of members when it is absent. */
  function Find(ms: seq<Member>, key: string): (i: nat)
    ensures i <= |ms|
    ensures i < |ms| ==> ms[i].key == key
  {
    if ms == [] then 0
    else if ms[0].key == key then 0
    else 1 + Find(ms[1..], key)
  }

  lemma {:induction false} FindIsFirst(ms: seq<Member>, key: string)
    ensures forall j | 0 <= j < Find(ms, key) :: ms[j].key != key
  {
    if ms != [] && ms[0].key != key {
      FindIsFirst(ms[1..], key);
    }
  }

  predicate Has(ms: seq<Member>, key: string) {
    Find(ms, key) < |ms|
  }

  function Get(ms: seq<Member>, key: string): Option<Value> {
    if Has(ms, key) then Some(ms[Find(ms, key)].value) else None
  }

  /** Ascending order on text: scalar values compare pairwise, a prefix comes first. */
  predicate TextLess(a: string, b: string) {
    if b == "" then false
    else if a == "" then true
    else a[0] < b[0] || (a[0] == b[0] && TextLess(a[1..], b[1..]))
  }

  /** Where a member absent from `ms` belongs. */
  function Slot(ms: seq<Member>, key: string): (i: nat)
    ensures i <= |ms|
  {
    if ms == [] then 0
    else if TextLess(key, ms[0].key) then 0
    else 1 + Slot(ms[1..], key)
  }

  lemma {:induction false} SlotIsBetween(ms: seq<Member>, key: string)
    ensures forall j | 0 <= j < Slot(ms, key) :: !TextLess(key, ms[j].key)
    ensures Slot(ms, key) < |ms| ==> TextLess(key, ms[Slot(ms, key)].key)
  {
    if ms != [] && !TextLess(key, ms[0].key) {
      SlotIsBetween(ms[1..], key);
    }
  }

  /** `Map::insert`: overwrite in place, or insert at the sorted position. */
  function Put(ms: seq<Member>, key: string, v: Value): (r: seq<Member>)
    ensures r != []
  {
    if Has(ms, key) then
      ms[Find(ms, key) := Member(key, v)]
    else
      ms[..Slot(ms, key)] + [Member(key, v)] + ms[Slot(ms, key)..]
  }

  lemma {:induction false} FindIs(ms: seq<Member>, key: string, i: nat)
    requires i <= |ms|
    requires forall j | 0 <= j < i :: ms[j].key != key
    requires i < |ms| ==> ms[i].key == key
    ensures Find(ms, key) == i
  {
    if i > 0 {
      assert ms[0].key != key;
      FindIs(ms[1..], key, i - 1);
    }
  }

  /** Overwriting values leaves every key where it was. */
  lemma FindSameKeys(a: seq<Member>, b: seq<Member>, key: string)
    requires |a| == |b| && forall i | 0 <= i < |a| :: a[i].key == b[i].key
    ensures Find(a, key) == Find(b, key)
  {
    FindIsFirst(a, key);
    FindIs(b, key, Find(a, key));
  }

  /** A map read after a map write. */
  lemma GetPut(ms: seq<Member>, key: string, v: Value, other: string)
    ensures Get(Put(ms, key, v), other) == if other == key then Some(v) else Get(ms, other)
  {
    var r := Put(ms, key, v);
    var f := Find(ms, other);
    FindIsFirst(ms, other);
    if Has(ms, key) {
      FindSameKeys(ms, r, other);
    } else {
      var s := Slot(ms, key);
      FindIsFirst(ms, key);
      if other == key {
        FindIs(r, other, s);
      } else {
        FindIs(r, other, if f < s then f else f + 1);
      }
    }
  }

  /** A map write costs the difference of the two values, or a whole new member. */
  lemma PutLen(ms: seq<Member>, key: string, v: Value)
    ensures MembersLen(Put(ms, key, v)) ==
            match Get(ms, key)
            case Some(w) => MembersLen(ms) - EncodedLen(w) + EncodedLen(v)
            case None => MembersLen(ms) + MemberLen(Member(key, v)) + (if ms == [] then 0 else 1)
  {
    if Has(ms, key) {
      MembersLenReplace(ms, Find(ms, key), v);
    } else {
      var s := Slot(ms, key);
      assert ms[..s] + ms[s..] == ms;
      MembersLenAround(ms[..s], Member(key, v), ms[s..]);
    }
  }

  /** Ascending unique keys: what a B-tree map guarantees and `Put` keeps. */
  predicate Sorted(ms: seq<Member>) {
    forall i, j | 0 <= i < j < |ms| :: TextLess(ms[i].key, ms[j].key)
  }

  lemma {:induction false} TextLessTotal(a: string, b: string)
    ensures a == b || TextLess(a, b) || TextLess(b, a)
    ensures !(TextLess(a, b) && TextLess(b, a))
    ensures !TextLess(a, a)
  {
    if a != "" && b != "" {
      TextLessTotal(a[1..], b[1..]);
      TextLessTotal(a[1..], a[1..]);
      assert a == [a[0]] + a[1..] && b == [b[0]] + b[1..];
    } else if a != "" {
      TextLessTotal(a[1..], a[1..]);
    }
  }

  lemma {:induction false} TextLessTransitive(a: string, b: string, c: string)
    requires TextLess(a, b) && TextLess(b, c)
    ensures TextLess(a, c)
  {
    if a != "" && a[0] == b[0] == c[0] {
      TextLessTransitive(a[1..], b[1..], c[1..]);
    }
  }

  lemma PutKeepsOrder(ms: seq<Member>, key: string, v: Value)
    requires Sorted(ms)
    ensures Sorted(Put(ms, key, v))
  {
    if !Has(ms, key) {
      var s := Slot(ms, key);
      SlotIsBetween(ms, key);
      FindIsFirst(ms, key);
      forall j | 0 <= j < s ensures TextLess(ms[j].key, key) {
        TextLessTotal(ms[j].key, key);
      }
      forall j | s <= j < |ms| ensures TextLess(key, ms[j].key) {
        if j > s {
          TextLessTransitive(key, ms[s].key, ms[j].key);
        }
      }
    }
  }
}
