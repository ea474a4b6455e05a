/** JSON values, the two printers the crate uses, and an RFC 8259 reader for what they print. */
module Json {
  import opened Basics
  import opened Order
  import opened Utf8
  import opened Digits

  /** The integers a `serde_json::Number` holds without becoming a float. */
  type JsonInt = n: int | -0x8000_0000_0000_0000 <= n < U64_SIZE

  datatype Json =
    | Null
    | Bool(b: bool)
    | Number(n: JsonInt)
    | String(s: string)
    | Array(items: seq<Json>)
    | Object(members: map<string, Json>)

  /** `AsciiOnly` is the canonical encoder, `RawUtf8` is `serde_json::to_vec`. */
  datatype Escaping = AsciiOnly | RawUtf8

  const QUOTE: Byte := 0x22
  const BACKSLASH: Byte := 0x5C
  const COMMA: Byte := 0x2C
  const COLON: Byte := 0x3A

  // -- strings ----------------------------------------------------------------------

  function HexByte(n: Nibble): Byte {
    HexDigit(n) as int
  }

  /** `\uXXXX` for one UTF-16 code unit, lower-case hex. */
  function UnicodeEscape(unit: int): (b: Bytes)
    requires 0 <= unit < 0x1_0000
    ensures |b| == 6
  {
    [BACKSLASH, 0x75, HexByte(unit / 4096), HexByte(unit / 256 % 16), HexByte(unit / 16 % 16), HexByte(unit % 16)]
  }

  /** The letter of a two-byte escape, if `c` has one. */
  function ShortEscape(c: char): (l: Option<Byte>) {
    var n := c as int;
    if n == 0x22 || n == 0x5C then Some(n)
    else if n == 0x08 then Some(0x62)
    else if n == 0x09 then Some(0x74)
    else if n == 0x0A then Some(0x6E)
    else if n == 0x0C then Some(0x66)
    else if n == 0x0D then Some(0x72)
    else None
  }

  function EscapeChar(c: char, e: Escaping): (b: Bytes)
    ensures b != []
  {
    var n := c as int;
    if ShortEscape(c).Some? then [BACKSLASH, ShortEscape(c).value]
    else if e.RawUtf8? then (if n < 0x20 then UnicodeEscape(n) else EncodeChar(c))
    else if 0x20 <= n <= 0x7E then [n]
    else if n <= 0xFFFF then UnicodeEscape(n)
    else
      var v := n - 0x1_0000;
      UnicodeEscape(0xD800 + v / 1024) + UnicodeEscape(0xDC00 + v % 1024)
  }

  function EscapeAll(s: string, e: Escaping): Bytes {
    if s == [] then [] else EscapeChar(s[0], e) + EscapeAll(s[1..], e)
  }

  function PrintString(s: string, e: Escaping): Bytes {
    [QUOTE] + EscapeAll(s, e) + [QUOTE]
  }

  // -- key order ----------------------------------------------------------------------

  /** The keys in the order a `BTreeMap` or a `sort` lists them. */
  ghost function SortedKeys(ks: set<string>): (r: seq<string>)
    ensures Elements(r) == ks
    ensures Sorted(TextLess, r)
    ensures ks != {} ==> r != []
  {
    if ks == {} then []
    else
      var k :| k in ks;
      var r := SortedKeys(ks - {k});
      TextOrderIsStrict(ks);
      InsertIsSorted(TextLess, k, r, ks);
      InsertElements(TextLess, k, r);
      Insert(TextLess, k, r)
  }

  /** Any enumeration of the keys, once sorted, is that one listing. */
  lemma SortGivesSortedKeys(xs: seq<string>)
    requires Distinct(xs)
    ensures Sort(TextLess, xs) == SortedKeys(Elements(xs))
  {
    TextOrderIsStrict(Elements(xs));
    SortIsSorted(TextLess, xs);
    SortedUnique(TextLess, Sort(TextLess, xs), SortedKeys(Elements(xs)));
  }

  /** Emitted keys strictly increase by code point. */
  lemma SortedKeysByCodePoint(ks: set<string>, i: nat, j: nat)
    requires i < j < |SortedKeys(ks)|
    ensures LexLess(CodePoints(SortedKeys(ks)[i]), CodePoints(SortedKeys(ks)[j]))
  {
    ByteOrderIsCodePointOrder(SortedKeys(ks)[i], SortedKeys(ks)[j]);
    assert TextLess(SortedKeys(ks)[i], SortedKeys(ks)[j]);
  }

  // -- printing ----------------------------------------------------------------------

  function PrintInt(n: JsonInt): (b: Bytes)
    ensures b != []
  {
    if n < 0 then [0x2D] + Decimal(-n) else Decimal(n)
  }

  const NULL: Bytes := Ascii("null")
  const TRUE: Bytes := Ascii("true")
  const FALSE: Bytes := Ascii("false")

  /** Compact JSON with sorted keys. */
  ghost function Print(v: Json, e: Escaping): (b: Bytes)
    ensures b != []
    decreases v, 1, 0
  {
    match v
    case Null => NULL
    case Bool(b) => if b then TRUE else FALSE
    case Number(n) => PrintInt(n)
    case String(s) => PrintString(s, e)
    case Array(items) => [0x5B] + PrintItems(items, e) + [0x5D]
    case Object(members) => [0x7B] + PrintMembers(SortedKeys(members.Keys), v, e) + [0x7D]
  }

  ghost function PrintItems(items: seq<Json>, e: Escaping): (b: Bytes)
    ensures items != [] ==> b != []
    decreases items, 0, 0
  {
    if items == [] then []
    else if |items| == 1 then Print(items[0], e)
    else Print(items[0], e) + [COMMA] + PrintItems(items[1..], e)
  }

  ghost predicate KeysOf(ks: seq<string>, v: Json) {
    v.Object? && forall k :: k in ks ==> k in v.members
  }

  ghost function PrintMember(k: string, v: Json, e: Escaping): (b: Bytes)
    requires v.Object? && k in v.members
    ensures b != []
    decreases v, 0, 0
  {
    PrintString(k, e) + [COLON] + Print(v.members[k], e)
  }

  ghost function PrintMembers(ks: seq<string>, v: Json, e: Escaping): (b: Bytes)
    requires KeysOf(ks, v)
    ensures ks != [] ==> b != []
    decreases v, 0, |ks| + 1
  {
    if ks == [] then []
    else if |ks| == 1 then PrintMember(ks[0], v, e)
    else PrintMember(ks[0], v, e) + [COMMA] + PrintMembers(ks[1..], v, e)
  }

  /** The value nests arrays and objects at most `limit` deep. */
  predicate Fits(v: Json, limit: nat) {
    match v
    case Array(items) => limit > 0 && forall x | x in items :: Fits(x, limit - 1)
    case Object(members) => limit > 0 && forall k | k in members :: Fits(members[k], limit - 1)
    case _ => true
  }

  // -- reading -------------------------------------------------------------------------

  /** Four hexadecimal digits at offset `i`. */
  function ReadUnit(b: Bytes, i: nat): (u: Option<int>)
    ensures u.Some? ==> i + 4 <= |b| && 0 <= u.value < 0x1_0000
  {
    if |b| < i + 4 then None
    else
      match (FromHexDigit(b[i] as char), FromHexDigit(b[i + 1] as char),
             FromHexDigit(b[i + 2] as char), FromHexDigit(b[i + 3] as char))
      case (Some(h), Some(j), Some(k), Some(l)) =>
        Some(h as int * 4096 + j as int * 256 + k as int * 16 + l as int)
      case _ => None
  }

  /** The part of `\uXXXX` after the `u`; a high surrogate needs its low partner. */
  function ReadUnicodeEscape(b: Bytes): (r: Option<Parsed<char>>)
    ensures r.Some? ==> |r.value.rest| < |b|
  {
    match ReadUnit(b, 0)
    case None => None
    case Some(u) =>
      if IsScalar(u) then Some(Parsed(u as char, b[4..]))
      else if u < 0xDC00 && |b| >= 6 && b[4] == BACKSLASH && b[5] == 0x75 then
        match ReadUnit(b, 6)
        case None => None
        case Some(w) =>
          if 0xDC00 <= w < 0xE000
          then Some(Parsed((0x1_0000 + (u - 0xD800) * 1024 + (w - 0xDC00)) as char, b[10..]))
          else None
      else None
  }

  function ReadEscape(b: Bytes): (r: Option<Parsed<char>>)
    ensures r.Some? ==> |r.value.rest| < |b|
  {
    if b == [] then None
    else if b[0] == 0x75 then ReadUnicodeEscape(b[1..])
    else if b[0] == 0x22 || b[0] == 0x5C || b[0] == 0x2F then Some(Parsed(b[0] as char, b[1..]))
    else if b[0] == 0x62 then Some(Parsed(0x08 as char, b[1..]))
    else if b[0] == 0x66 then Some(Parsed(0x0C as char, b[1..]))
    else if b[0] == 0x6E then Some(Parsed(0x0A as char, b[1..]))
    else if b[0] == 0x72 then Some(Parsed(0x0D as char, b[1..]))
    else if b[0] == 0x74 then Some(Parsed(0x09 as char, b[1..]))
    else None
  }

  /** One character of a string body, escaped or raw. */
  function ReadChar(b: Bytes): (r: Option<Parsed<char>>)
    ensures r.Some? ==> |r.value.rest| < |b|
  {
    if b == [] || b[0] < 0x20 then None
    else if b[0] == BACKSLASH then ReadEscape(b[1..])
    else DecodeChar(b)
  }

  /** A string body up to and including the closing quote. */
  function ReadChars(b: Bytes): (r: Option<Parsed<string>>)
    ensures r.Some? ==> |r.value.rest| < |b|
    decreases |b|
  {
    if b == [] then None
    else if b[0] == QUOTE then Some(Parsed("", b[1..]))
    else
      match ReadChar(b)
      case None => None
      case Some(c) =>
        match ReadChars(c.rest)
        case None => None
        case Some(s) => Some(Parsed([c.value] + s.value, s.rest))
  }

  predicate ExtendsNumber(b: Bytes) {
    b != [] && (IsDigit(b[0]) || b[0] == 0x2E || b[0] == 0x65 || b[0] == 0x45)
  }

  /** Decimal digits without a leading zero, and no fraction or exponent after them. */
  function ReadMagnitude(d: Bytes): (r: Option<Parsed<nat>>)
    ensures r.Some? ==> |r.value.rest| < |d|
  {
    var k := DigitRun(d);
    if k == 0 || (k > 1 && d[0] == 0x30) || ExtendsNumber(d[k..]) then None
    else Some(Parsed(FromDigits(d[..k]), d[k..]))
  }

  /** An integer in range; fractions and exponents would be floats. */
  function ReadNumber(b: Bytes): (r: Option<Parsed<Json>>)
    ensures r.Some? ==> |r.value.rest| < |b|
  {
    var negative := b != [] && b[0] == 0x2D;
    match ReadMagnitude(if negative then b[1..] else b)
    case None => None
    case Some(m) =>
      var n: int := m.value;
      if negative then
        if n == 0 || n > 0x8000_0000_0000_0000 then None else Some(Parsed(Number(-n), m.rest))
      else if n >= U64_SIZE then None
      else Some(Parsed(Number(n), m.rest))
  }

  function ReadWord(word: Bytes, v: Json, b: Bytes): (r: Option<Parsed<Json>>)
    requires word != []
    ensures r.Some? ==> |r.value.rest| < |b|
  {
    if word <= b then Some(Parsed(v, b[|word|..])) else None
  }

  /** One value off the front, nested at most `limit` deep. */
  function ReadValue(b: Bytes, limit: nat): (r: Option<Parsed<Json>>)
    ensures r.Some? ==> |r.value.rest| < |b|
    decreases |b|, 0
  {
    if b == [] then None
    else if b[0] == 0x6E then ReadWord(NULL, Null, b)
    else if b[0] == 0x74 then ReadWord(TRUE, Bool(true), b)
    else if b[0] == 0x66 then ReadWord(FALSE, Bool(false), b)
    else if b[0] == QUOTE then
      match ReadChars(b[1..])
      case None => None
      case Some(s) => Some(Parsed(String(s.value), s.rest))
    else if b[0] == 0x5B then
      if limit == 0 then None
      else if |b| > 1 && b[1] == 0x5D then Some(Parsed(Array([]), b[2..]))
      else
        match ReadItems(b[1..], limit - 1)
        case None => None
        case Some(a) => Some(Parsed(Array(a.value), a.rest))
    else if b[0] == 0x7B then
      if limit == 0 then None
      else if |b| > 1 && b[1] == 0x7D then Some(Parsed(Object(map[]), b[2..]))
      else
        match ReadMembers(b[1..], limit - 1, map[])
        case None => None
        case Some(m) => Some(Parsed(Object(m.value), m.rest))
    else ReadNumber(b)
  }

  function ReadItems(b: Bytes, limit: nat): (r: Option<Parsed<seq<Json>>>)
    ensures r.Some? ==> |r.value.rest| < |b|
    decreases |b|, 1
  {
    match ReadValue(b, limit)
    case None => None
    case Some(v) =>
      if v.rest == [] then None
      else if v.rest[0] == 0x5D then Some(Parsed([v.value], v.rest[1..]))
      else if v.rest[0] == COMMA then
        match ReadItems(v.rest[1..], limit)
        case None => None
        case Some(a) => Some(Parsed([v.value] + a.value, a.rest))
      else None
  }

  /** Members in turn; a repeated key keeps its last value. */
  function ReadMembers(b: Bytes, limit: nat, acc: map<string, Json>): (r: Option<Parsed<map<string, Json>>>)
    ensures r.Some? ==> |r.value.rest| < |b|
    decreases |b|, 1
  {
    if b == [] || b[0] != QUOTE then None
    else
      match ReadChars(b[1..])
      case None => None
      case Some(k) =>
        if k.rest == [] || k.rest[0] != COLON then None
        else
          match ReadValue(k.rest[1..], limit)
          case None => None
          case Some(v) =>
            var acc' := acc[k.value := v.value];
            if v.rest == [] then None
            else if v.rest[0] == 0x7D then Some(Parsed(acc', v.rest[1..]))
            else if v.rest[0] == COMMA then ReadMembers(v.rest[1..], limit, acc')
            else None
  }

  /** `serde_json::from_slice`: one value and nothing after it. */
  function ParseDocument(b: Bytes, limit: nat): (r: Option<Json>) {
    match ReadValue(b, limit)
    case None => None
    case Some(v) => if v.rest == [] then Some(v.value) else None
  }
}
