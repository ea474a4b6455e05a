/** Reading undoes printing, for both printers; hence each printer is injective. */
module JsonLaws {
  import opened Basics
  import opened Order
  import opened Utf8
  import opened Digits
  import opened Json

  // -- strings ---------------------------------------------------------------------------

  lemma UnitRoundTrip(unit: int, rest: Bytes)
    requires 0 <= unit < 0x1_0000
    ensures ReadUnit((UnicodeEscape(unit) + rest)[2..], 0) == Some(unit)
    ensures (UnicodeEscape(unit) + rest)[6..] == rest
  {
    var h, j, k, l := unit / 4096, unit / 256 % 16, unit / 16 % 16, unit % 16;
    HexDigits(unit);
    var b := (UnicodeEscape(unit) + rest)[2..];
    assert b == [HexByte(h), HexByte(j), HexByte(k), HexByte(l)] + rest;
    NibbleRoundTrip(h);
    NibbleRoundTrip(j);
    NibbleRoundTrip(k);
    NibbleRoundTrip(l);
  }

  lemma HexDigits(unit: int)
    requires 0 <= unit < 0x1_0000
    ensures unit / 4096 < 16
    ensures unit == unit / 4096 * 4096 + unit / 256 % 16 * 256 + unit / 16 % 16 * 16 + unit % 16
  {
    assert unit / 256 == unit / 16 / 16 && unit / 4096 == unit / 256 / 16;
  }

  lemma NibbleRoundTrip(n: Nibble)
    ensures FromHexDigit(HexByte(n) as char) == Some(n)
  {
    FromHexDigitOf(n);
  }

  lemma UnitAt(b: Bytes, i: nat)
    requires i <= |b|
    ensures ReadUnit(b, i) == ReadUnit(b[i..], 0)
  {
  }

  lemma UnicodeEscapeRoundTrip(c: char, rest: Bytes)
    requires c as int <= 0xFFFF
    ensures ReadChar(UnicodeEscape(c as int) + rest) == Some(Parsed(c, rest))
  {
    var b := UnicodeEscape(c as int) + rest;
    UnitRoundTrip(c as int, rest);
    assert b[1..][1..] == b[2..];
    assert b[2..][4..] == b[6..];
  }

  /** Two escapes in a row that form a pair are one character. */
  lemma PairReads(d: Bytes, hi: int, lo: int, rest: Bytes)
    requires 0xD800 <= hi < 0xDC00 <= lo < 0xE000
    requires |d| >= 10 && d[4] == BACKSLASH && d[5] == 0x75 && d[10..] == rest
    requires ReadUnit(d, 0) == Some(hi) && ReadUnit(d, 6) == Some(lo)
    ensures ReadUnicodeEscape(d) == Some(Parsed((0x1_0000 + (hi - 0xD800) * 1024 + (lo - 0xDC00)) as char, rest))
  {
    hide ReadUnit;
  }

  lemma SurrogatePairRoundTrip(c: char, rest: Bytes)
    requires c as int > 0xFFFF
    ensures ReadChar(EscapeChar(c, AsciiOnly) + rest) == Some(Parsed(c, rest))
  {
    hide ReadUnit, ReadUnicodeEscape;
    var v := c as int - 0x1_0000;
    var hi, lo := 0xD800 + v / 1024, 0xDC00 + v % 1024;
    var tail := UnicodeEscape(lo) + rest;
    var b := UnicodeEscape(hi) + tail;
    assert EscapeChar(c, AsciiOnly) + rest == b;
    UnitRoundTrip(hi, tail);
    UnitRoundTrip(lo, rest);
    var d := b[2..];
    assert b[1..][1..] == d && d[4..] == tail && d[6..] == tail[2..] && d[10..] == rest;
    UnitAt(d, 6);
    PairReads(d, hi, lo, rest);
  }

  lemma CharRoundTrip(c: char, e: Escaping, rest: Bytes)
    ensures ReadChar(EscapeChar(c, e) + rest) == Some(Parsed(c, rest))
    ensures EscapeChar(c, e)[0] != QUOTE
  {
    var n := c as int;
    var b := EscapeChar(c, e) + rest;
    if ShortEscape(c).Some? {
      assert b[1..][1..] == rest;
    } else if e.RawUtf8? {
      if n < 0x20 {
        UnicodeEscapeRoundTrip(c, rest);
      } else {
        DecodeEncodeChar(c, rest);
        assert b[0] == EncodeChar(c)[0];
      }
    } else if 0x20 <= n <= 0x7E {
      assert b[1..] == rest;
    } else if n <= 0xFFFF {
      UnicodeEscapeRoundTrip(c, rest);
    } else {
      SurrogatePairRoundTrip(c, rest);
    }
  }

  lemma {:induction false} CharsRoundTrip(s: string, e: Escaping, rest: Bytes)
    ensures ReadChars(EscapeAll(s, e) + [QUOTE] + rest) == Some(Parsed(s, rest))
  {
    var b := EscapeAll(s, e) + [QUOTE] + rest;
    if s == "" {
      assert b == [QUOTE] + rest;
    } else {
      var tail := EscapeAll(s[1..], e) + [QUOTE] + rest;
      assert b == EscapeChar(s[0], e) + tail;
      CharRoundTrip(s[0], e, tail);
      CharsRoundTrip(s[1..], e, rest);
      assert s == [s[0]] + s[1..];
    }
  }

  lemma StringRoundTrip(s: string, e: Escaping, rest: Bytes)
    ensures var b := PrintString(s, e) + rest;
            b[0] == QUOTE && ReadChars(b[1..]) == Some(Parsed(s, rest))
  {
    assert (PrintString(s, e) + rest)[1..] == EscapeAll(s, e) + [QUOTE] + rest;
    CharsRoundTrip(s, e, rest);
  }

  // -- numbers ----------------------------------------------------------------------------

  lemma MagnitudeRoundTrip(m: nat, rest: Bytes)
    requires !ExtendsNumber(rest)
    ensures ReadMagnitude(Decimal(m) + rest) == Some(Parsed(m, rest))
  {
    hide DigitRun, FromDigits, Decimal;
    var t := Decimal(m);
    var d := t + rest;
    assert d[0] == t[0] && d[..|t|] == t && d[|t|..] == rest;
    DigitRunOf(t, rest);
    FromDecimal(m);
  }

  lemma NumberRoundTrip(n: JsonInt, rest: Bytes)
    requires !ExtendsNumber(rest)
    ensures ReadNumber(PrintInt(n) + rest) == Some(Parsed(Number(n), rest))
  {
    hide ReadMagnitude, Decimal;
    if n < 0 {
      assert (PrintInt(n) + rest)[1..] == Decimal(-n) + rest;
      MagnitudeRoundTrip(-n, rest);
    } else {
      MagnitudeRoundTrip(n, rest);
      assert (PrintInt(n) + rest)[0] == Decimal(n)[0];
    }
  }

  // -- values -----------------------------------------------------------------------------

  /** First byte of a printed value: a digit or `-` for numbers, else the marker of its kind. */
  lemma FirstByte(v: Json, e: Escaping)
    ensures var f := Print(v, e)[0];
            && (v.Number? <==> f == 0x2D || IsDigit(f))
            && (v.Null? <==> f == 0x6E)
            && (v.Bool? <==> f == 0x74 || f == 0x66)
            && (v.String? <==> f == QUOTE)
            && (v.Array? <==> f == 0x5B)
            && (v.Object? <==> f == 0x7B)
  {
    match v
    case Number(n) => assert n < 0 ==> PrintInt(n)[0] == 0x2D;
    case _ =>
  }

  ghost predicate ItemsFit(items: seq<Json>, limit: nat) {
    forall x :: x in items ==> Fits(x, limit)
  }

  ghost function Expected<T>(ok: bool, value: T, rest: Bytes): Option<Parsed<T>> {
    if ok then Some(Parsed(value, rest)) else None
  }

  /** Printer and reader are inverse exactly on the values that nest within the reader's limit. */
  lemma {:induction false} ReadPrinted(v: Json, e: Escaping, limit: nat, rest: Bytes)
    requires !ExtendsNumber(rest)
    ensures ReadValue(Print(v, e) + rest, limit) == Expected(Fits(v, limit), v, rest)
    decreases v, 2, 0
  {
    var b := Print(v, e) + rest;
    FirstByte(v, e);
    assert b[0] == Print(v, e)[0];
    match v
    case Null =>
      assert b[|NULL|..] == rest;
    case Bool(t) =>
      assert b[|TRUE|..] == rest || b[|FALSE|..] == rest;
    case Number(n) =>
      NumberRoundTrip(n, rest);
    case String(s) =>
      StringRoundTrip(s, e, rest);
    case Array(items) =>
      ReadPrintedArray(v, e, limit, rest);
    case Object(members) =>
      ReadPrintedObject(v, e, limit, rest);
  }

  lemma {:induction false} ReadPrintedArray(v: Json, e: Escaping, limit: nat, rest: Bytes)
    requires v.Array?
    ensures ReadValue(Print(v, e) + rest, limit) == Expected(Fits(v, limit), v, rest)
    decreases v, 1, 0
  {
    hide ReadValue, ReadItems, PrintItems;
    var body := PrintItems(v.items, e) + [0x5D] + rest;
    assert Print(v, e) + rest == [0x5B] + body;
    ReadArray(body, limit);
    if v.items == [] {
      assert PrintItems(v.items, e) == [] by { PrintNoItems(e); }
      assert body[1..] == rest;
    } else {
      FirstOfItems(v.items, e);
      if limit > 0 {
        ReadPrintedItems(v.items, e, limit - 1, rest);
      }
    }
  }

  lemma PrintNoItems(e: Escaping)
    ensures PrintItems([], e) == []
  {
  }

  lemma FirstOfItems(items: seq<Json>, e: Escaping)
    requires items != []
    ensures PrintItems(items, e)[0] != 0x5D
  {
    FirstByte(items[0], e);
    assert PrintItems(items, e)[0] == Print(items[0], e)[0];
  }

  lemma ReadArray(body: Bytes, limit: nat)
    requires body != []
    ensures ReadValue([0x5B] + body, limit) ==
      if limit == 0 then None
      else if body[0] == 0x5D then Some(Parsed(Array([]), body[1..]))
      else match ReadItems(body, limit - 1)
        case None => None
        case Some(a) => Some(Parsed(Array(a.value), a.rest))
  {
    assert ([0x5B] + body)[1..] == body && ([0x5B] + body)[2..] == body[1..];
  }

  lemma {:induction false} ReadPrintedObject(v: Json, e: Escaping, limit: nat, rest: Bytes)
    requires v.Object?
    ensures ReadValue(Print(v, e) + rest, limit) == Expected(Fits(v, limit), v, rest)
    decreases v, 1, 0
  {
    hide ReadValue, ReadMembers, PrintMembers, Fits, MembersFit;
    var ks := SortedKeys(v.members.Keys);
    var body := PrintMembers(ks, v, e) + [0x7D] + rest;
    assert Print(v, e) + rest == [0x7B] + body;
    if ks == [] {
      EmptyObject(v, e, limit, rest);
      ReadObject(body, limit);
    } else {
      RestrictAll(v, limit);
      ReadPrintedBody(ks, v, e, limit, rest);
    }
  }

  lemma {:induction false} ReadPrintedBody(ks: seq<string>, v: Json, e: Escaping, limit: nat, rest: Bytes)
    requires ks != [] && KeysOf(ks, v)
    requires map[] + Restrict(ks, v) == v.members
    requires Fits(v, limit) == (limit > 0 && MembersFit(ks, v, limit - 1))
    ensures ReadValue([0x7B] + (PrintMembers(ks, v, e) + [0x7D] + rest), limit) == Expected(Fits(v, limit), v, rest)
    decreases v, 0, |ks| + 1
  {
    hide ReadValue, ReadMembers, PrintMembers, Fits, MembersFit;
    var body := PrintMembers(ks, v, e) + [0x7D] + rest;
    FirstOfMembers(ks, v, e);
    ReadObject(body, limit);
    if limit > 0 {
      ReadPrintedMembers(ks, v, e, limit - 1, map[], rest);
    }
  }

  lemma EmptyObject(v: Json, e: Escaping, limit: nat, rest: Bytes)
    requires v.Object? && SortedKeys(v.members.Keys) == []
    ensures var body := PrintMembers([], v, e) + [0x7D] + rest;
            body[0] == 0x7D && body[1..] == rest
    ensures v == Object(map[]) && Fits(v, limit) == (limit > 0)
  {
    RestrictAll(v, limit);
  }

  lemma FirstOfMembers(ks: seq<string>, v: Json, e: Escaping)
    requires ks != [] && KeysOf(ks, v)
    ensures PrintMembers(ks, v, e)[0] == QUOTE
  {
    assert PrintMember(ks[0], v, e)[0] == QUOTE;
  }

  lemma ReadObject(body: Bytes, limit: nat)
    requires body != []
    ensures limit == 0 ==> ReadValue([0x7B] + body, limit) == None
    ensures limit > 0 && body[0] == 0x7D ==>
      ReadValue([0x7B] + body, limit) == Some(Parsed(Object(map[]), body[1..]))
    ensures limit > 0 && body[0] != 0x7D ==>
      ReadValue([0x7B] + body, limit) == match ReadMembers(body, limit - 1, map[])
        case None => None
        case Some(m) => Some(Parsed(Object(m.value), m.rest))
  {
    assert ([0x7B] + body)[1..] == body && ([0x7B] + body)[2..] == body[1..];
  }

  lemma RestrictAll(v: Json, limit: nat)
    requires v.Object?
    ensures map[] + Restrict(SortedKeys(v.members.Keys), v) == v.members
    ensures SortedKeys(v.members.Keys) == [] ==> v == Object(map[])
    ensures Fits(v, limit) == (limit > 0 && MembersFit(SortedKeys(v.members.Keys), v, limit - 1))
  {
    var ks := SortedKeys(v.members.Keys);
    assert forall k :: k in v.members.Keys <==> k in Elements(ks);
    if ks == [] {
      assert v.members == map[];
    }
  }

  lemma {:induction false} ReadPrintedItems(items: seq<Json>, e: Escaping, limit: nat, rest: Bytes)
    requires items != []
    ensures ReadItems(PrintItems(items, e) + [0x5D] + rest, limit) == Expected(ItemsFit(items, limit), items, rest)
    decreases items, 0, 0
  {
    hide ReadValue, ReadItems, Print, Fits;
    var more := PrintItems(items[1..], e) + [0x5D] + rest;
    var tail := if |items| == 1 then [0x5D] + rest else [COMMA] + more;
    assert PrintItems(items, e) + [0x5D] + rest == Print(items[0], e) + tail;
    ReadPrinted(items[0], e, limit, tail);
    assert items == [items[0]] + items[1..];
    assert ItemsFit(items, limit) == (Fits(items[0], limit) && ItemsFit(items[1..], limit));
    ReadItem(Print(items[0], e) + tail, items[0], Fits(items[0], limit), tail, limit);
    if |items| > 1 {
      assert tail[1..] == more;
      ReadPrintedItems(items[1..], e, limit, rest);
    } else {
      assert tail[1..] == rest;
      assert items == [items[0]];
    }
  }

  /** Reading one element off the front of a list body, given how its value reads. */
  lemma ReadItem(b: Bytes, x: Json, fits: bool, tail: Bytes, limit: nat)
    requires tail != [] && ReadValue(b, limit) == Expected(fits, x, tail)
    ensures !fits ==> ReadItems(b, limit) == None
    ensures fits && tail[0] == 0x5D ==> ReadItems(b, limit) == Some(Parsed([x], tail[1..]))
    ensures fits && tail[0] == COMMA ==>
      ReadItems(b, limit) == match ReadItems(tail[1..], limit)
        case None => None
        case Some(a) => Some(Parsed([x] + a.value, a.rest))
  {
  }

  /** The members of `v` under the keys `ks`. */
  ghost function Restrict(ks: seq<string>, v: Json): map<string, Json>
    requires KeysOf(ks, v)
  {
    map k | k in ks :: v.members[k]
  }

  ghost predicate MembersFit(ks: seq<string>, v: Json, limit: nat)
    requires KeysOf(ks, v)
  {
    forall k :: k in ks ==> Fits(v.members[k], limit)
  }

  lemma {:induction false} ReadPrintedMembers(ks: seq<string>, v: Json, e: Escaping, limit: nat,
      acc: map<string, Json>, rest: Bytes)
    requires ks != [] && KeysOf(ks, v)
    ensures ReadMembers(PrintMembers(ks, v, e) + [0x7D] + rest, limit, acc)
         == Expected(MembersFit(ks, v, limit), acc + Restrict(ks, v), rest)
    decreases v, 0, |ks|
  {
    hide ReadValue, ReadMembers, Print, PrintMember, Fits;
    var k, x := ks[0], v.members[ks[0]];
    var more := PrintMembers(ks[1..], v, e) + [0x7D] + rest;
    var tail := if |ks| == 1 then [0x7D] + rest else [COMMA] + more;
    assert PrintMembers(ks, v, e) + [0x7D] + rest == PrintMember(k, v, e) + tail;
    ReadPrinted(x, e, limit, tail);
    ReadMember(k, v, e, limit, acc, tail);
    RestrictStep(ks, v, limit, acc);
    if |ks| > 1 {
      assert tail[1..] == more;
      ReadPrintedMembers(ks[1..], v, e, limit, acc[k := x], rest);
    } else {
      assert tail[1..] == rest;
    }
  }

  lemma RestrictStep(ks: seq<string>, v: Json, limit: nat, acc: map<string, Json>)
    requires ks != [] && KeysOf(ks, v)
    ensures acc[ks[0] := v.members[ks[0]]] + Restrict(ks[1..], v) == acc + Restrict(ks, v)
    ensures |ks| == 1 ==> acc[ks[0] := v.members[ks[0]]] == acc + Restrict(ks, v)
    ensures MembersFit(ks, v, limit) == (Fits(v.members[ks[0]], limit) && MembersFit(ks[1..], v, limit))
  {
    assert ks == [ks[0]] + ks[1..];
  }

  /** Reading one printed member, given that its value reads back. */
  lemma ReadMember(k: string, v: Json, e: Escaping, limit: nat, acc: map<string, Json>, tail: Bytes)
    requires v.Object? && k in v.members && tail != []
    requires ReadValue(Print(v.members[k], e) + tail, limit) == Expected(Fits(v.members[k], limit), v.members[k], tail)
    ensures var r := ReadMembers(PrintMember(k, v, e) + tail, limit, acc);
            var acc' := acc[k := v.members[k]];
            && (!Fits(v.members[k], limit) ==> r == None)
            && (Fits(v.members[k], limit) && tail[0] == 0x7D ==> r == Some(Parsed(acc', tail[1..])))
            && (Fits(v.members[k], limit) && tail[0] == COMMA ==> r == ReadMembers(tail[1..], limit, acc'))
  {
    hide Print, ReadValue, ReadChars, Fits, PrintString;
    var value := Print(v.members[k], e) + tail;
    assert PrintMember(k, v, e) + tail == PrintString(k, e) + ([COLON] + value);
    StringRoundTrip(k, e, [COLON] + value);
    assert ([COLON] + value)[1..] == value;
  }

  /** A document reads back exactly when it nests within the limit. */
  lemma DocumentRoundTrip(v: Json, e: Escaping, limit: nat)
    ensures ParseDocument(Print(v, e), limit) == if Fits(v, limit) then Some(v) else None
  {
    ReadPrinted(v, e, limit, []);
    assert Print(v, e) + [] == Print(v, e);
  }

  // -- injectivity ------------------------------------------------------------------------

  lemma {:induction false} FitsMonotone(v: Json, a: nat, b: nat)
    requires a <= b && Fits(v, a)
    ensures Fits(v, b)
  {
    match v
    case Array(items) =>
      forall x | x in items ensures Fits(x, b - 1) { FitsMonotone(x, a - 1, b - 1); }
    case Object(members) =>
      forall k | k in members ensures Fits(members[k], b - 1) { FitsMonotone(members[k], a - 1, b - 1); }
    case _ =>
  }

  /** Nesting never exceeds the printed length. */
  lemma {:induction false} FitsLength(v: Json, e: Escaping)
    ensures Fits(v, |Print(v, e)|)
    decreases v
  {
    var n := |Print(v, e)|;
    match v
    case Array(items) =>
      forall x | x in items ensures Fits(x, n - 1) {
        var i :| 0 <= i < |items| && items[i] == x;
        FitsLength(x, e);
        ItemLength(items, i, e);
        FitsMonotone(x, |Print(x, e)|, n - 1);
      }
    case Object(members) =>
      var ks := SortedKeys(members.Keys);
      forall k | k in members ensures Fits(members[k], n - 1) {
        assert k in Elements(ks);
        var i :| 0 <= i < |ks| && ks[i] == k;
        FitsLength(members[k], e);
        MemberLength(ks, v, i, e);
        FitsMonotone(members[k], |Print(members[k], e)|, n - 1);
      }
    case _ =>
  }

  lemma {:induction false} ItemLength(items: seq<Json>, i: nat, e: Escaping)
    requires i < |items|
    ensures |Print(items[i], e)| <= |PrintItems(items, e)|
  {
    if i > 0 {
      ItemLength(items[1..], i - 1, e);
    }
  }

  lemma {:induction false} MemberLength(ks: seq<string>, v: Json, i: nat, e: Escaping)
    requires KeysOf(ks, v) && i < |ks|
    ensures |Print(v.members[ks[i]], e)| <= |PrintMembers(ks, v, e)|
    decreases |ks|
  {
    if i > 0 {
      MemberLength(ks[1..], v, i - 1, e);
    }
  }

  /** A printed value followed by anything that cannot extend a number is self-delimiting. */
  lemma PrintSelfDelimiting(v: Json, w: Json, e: Escaping, x: Bytes, y: Bytes)
    requires !ExtendsNumber(x) && !ExtendsNumber(y)
    requires Print(v, e) + x == Print(w, e) + y
    ensures v == w && x == y
  {
    var limit := |Print(v, e)| + |Print(w, e)|;
    FitsLength(v, e);
    FitsLength(w, e);
    FitsMonotone(v, |Print(v, e)|, limit);
    FitsMonotone(w, |Print(w, e)|, limit);
    ReadPrinted(v, e, limit, x);
    ReadPrinted(w, e, limit, y);
  }

  /** An object closes itself: whatever bytes follow, it can be cut off again. */
  lemma ObjectSelfDelimiting(v: Json, w: Json, e: Escaping, x: Bytes, y: Bytes)
    requires v.Object? && w.Object?
    requires Print(v, e) + x == Print(w, e) + y
    ensures v == w && x == y
  {
    hide Print, ReadValue, Fits;
    var limit := |Print(v, e)| + |Print(w, e)|;
    FitsLength(v, e);
    FitsLength(w, e);
    FitsMonotone(v, |Print(v, e)|, limit);
    FitsMonotone(w, |Print(w, e)|, limit);
    ReadPrintedObject(v, e, limit, x);
    ReadPrintedObject(w, e, limit, y);
  }

  lemma PrintInjective(v: Json, w: Json, e: Escaping)
    requires Print(v, e) == Print(w, e)
    ensures v == w
  {
    PrintSelfDelimiting(v, w, e, [], []);
  }

  // -- the two encoders compared ------------------------------------------------------------

  predicate BelowDelete(s: string) {
    forall i :: 0 <= i < |s| ==> s[i] as int <= 0x7E
  }

  /** Every string and key of the value stays at or below U+007E. */
  predicate AllBelowDelete(v: Json) {
    match v
    case String(s) => BelowDelete(s)
    case Array(items) => forall x | x in items :: AllBelowDelete(x)
    case Object(members) => forall k | k in members :: BelowDelete(k) && AllBelowDelete(members[k])
    case _ => true
  }

  /** `a` and `b` coincide when `same`, and `a` is strictly longer when not. */
  ghost predicate SameOrLonger(a: Bytes, b: Bytes, same: bool) {
    if same then a == b else |a| > |b|
  }

  lemma CompareChar(c: char)
    ensures SameOrLonger(EscapeChar(c, AsciiOnly), EscapeChar(c, RawUtf8), c as int <= 0x7E)
  {
  }

  lemma {:induction false} CompareChars(s: string)
    ensures SameOrLonger(EscapeAll(s, AsciiOnly), EscapeAll(s, RawUtf8), BelowDelete(s))
  {
    if s != "" {
      CompareChar(s[0]);
      CompareChars(s[1..]);
      assert BelowDelete(s) == (s[0] as int <= 0x7E && BelowDelete(s[1..]));
    }
  }

  lemma {:induction false} Compare(v: Json)
    ensures SameOrLonger(Print(v, AsciiOnly), Print(v, RawUtf8), AllBelowDelete(v))
    decreases v, 1, 0
  {
    match v
    case String(s) =>
      CompareChars(s);
    case Array(items) =>
      CompareItems(items);
    case Object(members) =>
      var ks := SortedKeys(members.Keys);
      CompareMembers(ks, v);
      assert forall k :: k in members.Keys <==> k in Elements(ks);
    case _ =>
  }

  lemma {:induction false} CompareItems(items: seq<Json>)
    ensures SameOrLonger(PrintItems(items, AsciiOnly), PrintItems(items, RawUtf8),
                         forall x | x in items :: AllBelowDelete(x))
    decreases items, 0, 0
  {
    if items != [] {
      Compare(items[0]);
      CompareItems(items[1..]);
      assert items == [items[0]] + items[1..];
    }
  }

  lemma {:induction false} CompareMembers(ks: seq<string>, v: Json)
    requires KeysOf(ks, v)
    ensures SameOrLonger(PrintMembers(ks, v, AsciiOnly), PrintMembers(ks, v, RawUtf8),
                         forall k | k in ks :: BelowDelete(k) && AllBelowDelete(v.members[k]))
    decreases v, 0, |ks|
  {
    hide Print, EscapeAll, AllBelowDelete, BelowDelete;
    if ks != [] {
      CompareChars(ks[0]);
      Compare(v.members[ks[0]]);
      CompareMembers(ks[1..], v);
      assert ks == [ks[0]] + ks[1..];
    }
  }

  /** The canonical encoder and `serde_json` agree exactly below U+007F. */
  lemma EncodersAgree(v: Json)
    ensures Print(v, AsciiOnly) == Print(v, RawUtf8) <==> AllBelowDelete(v)
  {
    Compare(v);
  }

  // -- the canonical encoder is ASCII ---------------------------------------------------------

  predicate Printable(b: Bytes) {
    forall i :: 0 <= i < |b| ==> 0x20 <= b[i] <= 0x7E
  }

  lemma {:induction false} CharsPrintable(s: string)
    ensures Printable(EscapeAll(s, AsciiOnly))
  {
    if s != "" {
      CharsPrintable(s[1..]);
      CharPrintable(s[0]);
    }
  }

  lemma CharPrintable(c: char)
    ensures Printable(EscapeChar(c, AsciiOnly))
  {
  }

  /** Every byte of a canonical encoding is printable ASCII. */
  lemma {:induction false} CanonicalPrintable(v: Json)
    ensures Printable(Print(v, AsciiOnly))
    decreases v, 1, 0
  {
    hide PrintItems, PrintMembers;
    match v
    case String(s) =>
      CharsPrintable(s);
    case Array(items) =>
      ItemsPrintable(items);
    case Object(members) =>
      MembersPrintable(SortedKeys(members.Keys), v);
    case _ =>
  }

  lemma {:induction false} ItemsPrintable(items: seq<Json>)
    ensures Printable(PrintItems(items, AsciiOnly))
    decreases items, 0, 0
  {
    if items != [] {
      CanonicalPrintable(items[0]);
      ItemsPrintable(items[1..]);
    }
  }

  lemma {:induction false} MembersPrintable(ks: seq<string>, v: Json)
    requires KeysOf(ks, v)
    ensures Printable(PrintMembers(ks, v, AsciiOnly))
    decreases v, 0, |ks|
  {
    hide Print, EscapeAll;
    if ks != [] {
      CharsPrintable(ks[0]);
      CanonicalPrintable(v.members[ks[0]]);
      MembersPrintable(ks[1..], v);
    }
  }
}
