/** What canonical JSON text is, by itself: a recogniser that shares nothing with the printer, and
    the proof that it accepts exactly the printer's output. */
module JsonCanonical {
  import opened Basics
  import opened Order
  import opened Utf8
  import opened Digits
  import opened Json
  import opened JsonLaws

  // -- the recogniser: each function returns what follows the canonical text at the front ------------

  predicate LowerHex(x: Byte) {
    0x30 <= x <= 0x39 || 0x61 <= x <= 0x66
  }

  function HexValue(x: Byte): (n: int)
    requires LowerHex(x)
    ensures 0 <= n < 16
  {
    if x <= 0x39 then x - 0x30 else x - 0x61 + 10
  }

  /** The code unit of a `\uXXXX` at offset `i`, in lower-case hex, highest digit first. */
  function EscapedUnit(b: Bytes, i: nat): (u: Option<int>)
    ensures u.Some? ==> i + 6 <= |b| && 0 <= u.value < 0x1_0000
  {
    if |b| < i + 6 || b[i] != 0x5C || b[i + 1] != 0x75 then None
    else if !(LowerHex(b[i + 2]) && LowerHex(b[i + 3]) && LowerHex(b[i + 4]) && LowerHex(b[i + 5])) then None
    else
      Some(HexValue(b[i + 2]) * 4096 + HexValue(b[i + 3]) * 256 + HexValue(b[i + 4]) * 16 + HexValue(b[i + 5]))
  }

  /** The letters that may follow a backslash on their own: `"`, `\`, `b`, `f`, `n`, `r`, `t`. */
  predicate ShortLetter(x: Byte) {
    x == 0x22 || x == 0x5C || x == 0x62 || x == 0x66 || x == 0x6E || x == 0x72 || x == 0x74
  }

  /** Characters that have a shorter spelling than `\uXXXX`. */
  predicate HasShortSpelling(u: int) {
    0x20 <= u <= 0x7E || u == 0x08 || u == 0x09 || u == 0x0A || u == 0x0C || u == 0x0D
  }

  function AfterChar(b: Bytes): (r: Option<Bytes>)
    ensures r.Some? ==> |r.value| < |b|
  {
    if b == [] then None
    else if b[0] != 0x5C then (if 0x20 <= b[0] <= 0x7E && b[0] != 0x22 then Some(b[1..]) else None)
    else if |b| >= 2 && ShortLetter(b[1]) then Some(b[2..])
    else
      match (EscapedUnit(b, 0), EscapedUnit(b, 6))
      case (None, _) => None
      case (Some(u), low) =>
        if u < 0xD800 || 0xE000 <= u then (if HasShortSpelling(u) then None else Some(b[6..]))
        else if u < 0xDC00 && low.Some? && 0xDC00 <= low.value < 0xE000 then Some(b[12..])
        else None
  }

  function AfterChars(b: Bytes): (r: Option<Bytes>)
    ensures r.Some? ==> |r.value| < |b|
    decreases |b|
  {
    if b != [] && b[0] == 0x22 then Some(b[1..])
    else match AfterChar(b) case None => None case Some(rest) => AfterChars(rest)
  }

  /** Digits without a leading zero; a minus sign only before a positive number. */
  function AfterNumber(b: Bytes): (r: Option<Bytes>)
    ensures r.Some? ==> |r.value| < |b|
  {
    var negative := b != [] && b[0] == 0x2D;
    var d := if negative then b[1..] else b;
    var k := DigitRun(d);
    if k == 0 || (d[0] == 0x30 && (k > 1 || negative)) then None else Some(d[k..])
  }

  function AfterWord(word: Bytes, b: Bytes): (r: Option<Bytes>)
    requires word != []
    ensures r.Some? ==> |r.value| < |b|
  {
    if word <= b then Some(b[|word|..]) else None
  }

  function AfterValue(b: Bytes): (r: Option<Bytes>)
    ensures r.Some? ==> |r.value| < |b|
    decreases |b|, 0
  {
    if b == [] then None
    else if b[0] == 0x6E then AfterWord([0x6E, 0x75, 0x6C, 0x6C], b)
    else if b[0] == 0x74 then AfterWord([0x74, 0x72, 0x75, 0x65], b)
    else if b[0] == 0x66 then AfterWord([0x66, 0x61, 0x6C, 0x73, 0x65], b)
    else if b[0] == 0x22 then AfterChars(b[1..])
    else if b[0] == 0x5B then (if |b| > 1 && b[1] == 0x5D then Some(b[2..]) else AfterItems(b[1..]))
    else if b[0] == 0x7B then (if |b| > 1 && b[1] == 0x7D then Some(b[2..]) else AfterMembers(b[1..], None))
    else AfterNumber(b)
  }

  function AfterItems(b: Bytes): (r: Option<Bytes>)
    ensures r.Some? ==> |r.value| < |b|
    decreases |b|, 1
  {
    match AfterValue(b)
    case None => None
    case Some(rest) =>
      if rest == [] then None
      else if rest[0] == 0x5D then Some(rest[1..])
      else if rest[0] == 0x2C then AfterItems(rest[1..])
      else None
  }

  /** Keys strictly increase by code point, from `last` on. */
  function AfterMembers(b: Bytes, last: Option<string>): (r: Option<Bytes>)
    ensures r.Some? ==> |r.value| < |b|
    decreases |b|, 1
  {
    if b == [] || b[0] != 0x22 then None
    else
      match (AfterChars(b[1..]), ReadChars(b[1..]))
      case (Some(colon), Some(key)) =>
        if colon == [] || colon[0] != 0x3A || !Above(key.value, last) then None
        else
          (match AfterValue(colon[1..])
           case None => None
           case Some(rest) =>
             if rest == [] then None
             else if rest[0] == 0x7D then Some(rest[1..])
             else if rest[0] == 0x2C then AfterMembers(rest[1..], Some(key.value))
             else None)
      case _ => None
  }

  predicate Above(key: string, last: Option<string>) {
    last.Some? ==> LexLess(CodePoints(last.value), CodePoints(key))
  }

  predicate IsCanonical(b: Bytes) {
    AfterValue(b) == Some([])
  }

  // -- what is recognised and reads as a value is its print ------------------------------------------

  lemma HexValueIs(x: Byte)
    requires LowerHex(x)
    ensures FromHexDigit(x as char) == Some(HexValue(x)) && HexByte(HexValue(x)) == x
  {
  }

  lemma UnitIs(b: Bytes, i: nat)
    requires EscapedUnit(b, i).Some?
    ensures ReadUnit(b, i + 2) == EscapedUnit(b, i)
    ensures b[i..i + 6] == UnicodeEscape(EscapedUnit(b, i).value)
  {
    hide HexByte, FromHexDigit;
    HexValueIs(b[i + 2]);
    HexValueIs(b[i + 3]);
    HexValueIs(b[i + 4]);
    HexValueIs(b[i + 5]);
    Nibbles(HexValue(b[i + 2]), HexValue(b[i + 3]), HexValue(b[i + 4]), HexValue(b[i + 5]));
  }

  lemma Nibbles(h: Nibble, j: Nibble, k: Nibble, l: Nibble)
    ensures var u := h as int * 4096 + j as int * 256 + k as int * 16 + l as int;
            u / 4096 == h && u / 256 % 16 == j && u / 16 % 16 == k && u % 16 == l
  {
    var u := h as int * 4096 + j as int * 256 + k as int * 16 + l as int;
    Shift(h as int * 256 + j as int * 16 + k as int, l);
    Shift(h as int * 16 + j as int, k);
    Shift(h, j);
    assert u / 256 == u / 16 / 16 && u / 4096 == u / 256 / 16;
  }

  lemma Shift(n: nat, d: Nibble)
    ensures (n * 16 + d) / 16 == n && (n * 16 + d) % 16 == d
  {
  }

  lemma CharIs(b: Bytes)
    requires AfterChar(b).Some? && ReadChar(b).Some?
    ensures ReadChar(b).value.rest == AfterChar(b).value
    ensures b == EscapeChar(ReadChar(b).value.value, AsciiOnly) + AfterChar(b).value
  {
    hide EscapedUnit, ReadUnit, UnicodeEscape;
    if b[0] == 0x5C {
      if ShortLetter(b[1]) {
        assert b[1..][1..] == b[2..] && b == [0x5C, b[1]] + b[2..];
      } else {
        EscapeIs(b);
      }
    } else {
      assert b == [b[0]] + b[1..];
    }
  }

  lemma EscapeIs(b: Bytes)
    requires b != [] && b[0] == 0x5C && !(|b| >= 2 && ShortLetter(b[1]))
    requires AfterChar(b).Some? && ReadChar(b).Some?
    ensures ReadChar(b).value.rest == AfterChar(b).value
    ensures b == EscapeChar(ReadChar(b).value.value, AsciiOnly) + AfterChar(b).value
  {
    hide EscapedUnit, ReadUnit, UnicodeEscape;
    UnitIs(b, 0);
    assert b[1] == 0x75 by { UnitStarts(b, 0); }
    var u := EscapedUnit(b, 0).value;
    var d := b[1..][1..];
    assert d == b[2..] && d[4..] == b[6..];
    assert ReadUnit(d, 0) == ReadUnit(b, 2) by { UnitAt(b, 2); }
    if u < 0xD800 || 0xE000 <= u {
      assert b == b[0..6] + b[6..];
    } else {
      UnitIs(b, 6);
      assert b[6] == 0x5C && b[7] == 0x75 by { UnitStarts(b, 6); }
      assert d[10..] == b[12..] && d[4] == b[6] && d[5] == b[7];
      assert ReadUnit(d, 6) == ReadUnit(b, 8) by { UnitAt(b, 8); UnitAt(d, 6); assert d[6..] == b[8..]; }
      assert b == b[0..6] + b[6..12] + b[12..];
      PairSplits(u, EscapedUnit(b, 6).value);
    }
  }

  lemma UnitStarts(b: Bytes, i: nat)
    requires EscapedUnit(b, i).Some?
    ensures b[i] == 0x5C && b[i + 1] == 0x75
  {
  }

  lemma PairSplits(hi: int, lo: int)
    requires 0xD800 <= hi < 0xDC00 <= lo < 0xE000
    ensures var v := (hi - 0xD800) * 1024 + (lo - 0xDC00);
            0xD800 + v / 1024 == hi && 0xDC00 + v % 1024 == lo
  {
  }

  lemma {:induction false} CharsAre(b: Bytes)
    requires AfterChars(b).Some? && ReadChars(b).Some?
    ensures ReadChars(b).value.rest == AfterChars(b).value
    ensures b == EscapeAll(ReadChars(b).value.value, AsciiOnly) + [QUOTE] + AfterChars(b).value
    decreases |b|
  {
    hide AfterChar, ReadChar, EscapeChar;
    if b[0] == 0x22 {
      assert b == [QUOTE] + b[1..];
    } else {
      CharIs(b);
      var (c, rest) := (ReadChar(b).value.value, AfterChar(b).value);
      CharsAre(rest);
      var s := ReadChars(rest).value.value;
      assert ([c] + s)[1..] == s;
    }
  }

  /** Digits without a leading zero are the decimal text of their number. */
  lemma {:induction false} DecimalIs(d: Bytes)
    requires d != [] && AllDigits(d) && (d[0] == 0x30 ==> |d| == 1)
    ensures d == Decimal(FromDigits(d))
    ensures FromDigits(d) == 0 <==> d == [0x30]
  {
    var n := |d| - 1;
    assert d == d[..n] + [d[n]];
    if n == 0 {
      assert d[..n] == [];
    } else {
      DecimalIs(d[..n]);
    }
  }

  lemma MagnitudeIs(d: Bytes)
    requires ReadMagnitude(d).Some?
    ensures var (k, m) := (DigitRun(d), ReadMagnitude(d).value);
            && k > 0 && m.rest == d[k..] && d == Decimal(m.value) + d[k..]
            && (d[0] == 0x30 <==> m.value == 0)
  {
    hide DigitRun, FromDigits, Decimal;
    var k := DigitRun(d);
    DecimalIs(d[..k]);
    assert d == d[..k] + d[k..];
  }

  lemma NumberIs(b: Bytes)
    requires AfterNumber(b).Some? && ReadNumber(b).Some?
    ensures ReadNumber(b).value.rest == AfterNumber(b).value && ReadNumber(b).value.value.Number?
    ensures b == PrintInt(ReadNumber(b).value.value.n) + AfterNumber(b).value
  {
    hide DigitRun, ReadMagnitude, Decimal;
    var d := if b[0] == 0x2D then b[1..] else b;
    MagnitudeIs(d);
    var (m, rest) := (ReadMagnitude(d).value, d[DigitRun(d)..]);
    assert m.rest == rest && AfterNumber(b) == Some(rest);
    if b[0] == 0x2D {
      assert m.value != 0 && ReadNumber(b) == Some(Parsed(Number(-(m.value as int)), rest));
      assert b == [0x2D] + Decimal(m.value) + rest;
    } else {
      assert ReadNumber(b) == Some(Parsed(Number(m.value), rest));
    }
  }

  lemma WordIs(b: Bytes)
    ensures NULL == [0x6E, 0x75, 0x6C, 0x6C] && TRUE == [0x74, 0x72, 0x75, 0x65]
    ensures FALSE == [0x66, 0x61, 0x6C, 0x73, 0x65]
    ensures NULL <= b ==> b == NULL + b[|NULL|..]
    ensures TRUE <= b ==> b == TRUE + b[|TRUE|..]
    ensures FALSE <= b ==> b == FALSE + b[|FALSE|..]
  {
  }

  lemma {:induction false} ValueIs(b: Bytes, limit: nat)
    requires AfterValue(b).Some? && ReadValue(b, limit).Some?
    ensures ReadValue(b, limit).value.rest == AfterValue(b).value
    ensures b == Print(ReadValue(b, limit).value.value, AsciiOnly) + AfterValue(b).value
    decreases |b|, 0
  {
    if b[0] == 0x6E || b[0] == 0x74 || b[0] == 0x66 {
      WordValueIs(b, limit);
    } else if b[0] == 0x22 {
      StringIs(b, limit);
    } else if b[0] == 0x5B {
      ArrayIs(b, limit);
    } else if b[0] == 0x7B {
      ObjectIs(b, limit);
    } else {
      hide AfterNumber, ReadNumber, Print, PrintInt;
      NumberIs(b);
      NumberPrint(ReadNumber(b).value.value.n);
    }
  }

  lemma NumberPrint(n: JsonInt)
    ensures Print(Number(n), AsciiOnly) == PrintInt(n)
  {
  }

  lemma WordValueIs(b: Bytes, limit: nat)
    requires b != [] && (b[0] == 0x6E || b[0] == 0x74 || b[0] == 0x66)
    requires AfterValue(b).Some? && ReadValue(b, limit).Some?
    ensures ReadValue(b, limit).value.rest == AfterValue(b).value
    ensures b == Print(ReadValue(b, limit).value.value, AsciiOnly) + AfterValue(b).value
  {
    WordIs(b);
  }

  lemma StringIs(b: Bytes, limit: nat)
    requires b != [] && b[0] == 0x22 && AfterValue(b).Some? && ReadValue(b, limit).Some?
    ensures ReadValue(b, limit).value.rest == AfterValue(b).value
    ensures b == Print(ReadValue(b, limit).value.value, AsciiOnly) + AfterValue(b).value
  {
    hide AfterChars, ReadChars;
    CharsAre(b[1..]);
    assert b == [QUOTE] + b[1..];
  }

  lemma {:induction false} ArrayIs(b: Bytes, limit: nat)
    requires b != [] && b[0] == 0x5B && AfterValue(b).Some? && ReadValue(b, limit).Some?
    ensures ReadValue(b, limit).value.rest == AfterValue(b).value
    ensures b == Print(ReadValue(b, limit).value.value, AsciiOnly) + AfterValue(b).value
    decreases |b| - 1, 2
  {
    hide AfterItems, ReadItems, PrintItems;
    assert b == [0x5B] + b[1..];
    if |b| > 1 && b[1] == 0x5D {
      PrintNoItems(AsciiOnly);
      assert b[1..] == [0x5D] + b[2..];
    } else {
      ItemsAre(b[1..], limit - 1);
    }
  }

  lemma {:induction false} ItemsAre(b: Bytes, limit: nat)
    requires AfterItems(b).Some? && ReadItems(b, limit).Some?
    ensures ReadItems(b, limit).value.rest == AfterItems(b).value && ReadItems(b, limit).value.value != []
    ensures b == PrintItems(ReadItems(b, limit).value.value, AsciiOnly) + [0x5D] + AfterItems(b).value
    decreases |b|, 1
  {
    hide AfterValue, ReadValue, Print;
    ValueIs(b, limit);
    var (x, rest) := (ReadValue(b, limit).value.value, AfterValue(b).value);
    assert rest == [rest[0]] + rest[1..];
    if rest[0] == 0x2C {
      ItemsAre(rest[1..], limit);
      var xs := ReadItems(rest[1..], limit).value.value;
      assert ([x] + xs)[1..] == xs;
    }
  }

  lemma {:induction false} ObjectIs(b: Bytes, limit: nat)
    requires b != [] && b[0] == 0x7B && AfterValue(b).Some? && ReadValue(b, limit).Some?
    ensures ReadValue(b, limit).value.rest == AfterValue(b).value
    ensures b == Print(ReadValue(b, limit).value.value, AsciiOnly) + AfterValue(b).value
    decreases |b| - 1, 2
  {
    hide AfterMembers, ReadMembers, PrintMembers, Print;
    assert b == [0x7B] + b[1..];
    if |b| > 1 && b[1] == 0x7D {
      assert b[1..] == [0x7D] + b[2..];
      NoKeys();
      NoMembers();
      PrintedObject(map[], []);
    } else {
      var ks := MembersAre(b[1..], limit - 1, map[], None);
      PrintedObject(ReadMembers(b[1..], limit - 1, map[]).value.value, ks);
    }
  }

  lemma PrintedObject(m: map<string, Json>, ks: seq<string>)
    requires Sorted(TextLess, ks) && Elements(ks) == m.Keys
    ensures KeysOf(ks, Object(m))
    ensures Print(Object(m), AsciiOnly) == [0x7B] + PrintMembers(ks, Object(m), AsciiOnly) + [0x7D]
  {
    hide PrintMembers, TextLess;
    TextOrderIsStrict(m.Keys);
    SortedUnique(TextLess, ks, SortedKeys(m.Keys));
    assert forall k :: k in ks ==> k in Elements(ks);
  }

  lemma NoKeys()
    ensures SortedKeys({}) == [] && SortedKeys(Object(map[]).members.Keys) == []
  {
  }

  lemma NoMembers()
    ensures PrintMembers([], Object(map[]), AsciiOnly) == []
  {
  }

  /** Reading recognised members: the keys that were read, in order, and the map they filled. */
  lemma {:induction false} MembersAre(b: Bytes, limit: nat, acc: map<string, Json>, last: Option<string>)
      returns (ks: seq<string>)
    requires AfterMembers(b, last).Some? && ReadMembers(b, limit, acc).Some?
    requires forall k :: k in acc ==> last.Some? && (k == last.value || TextLess(k, last.value))
    ensures var r := ReadMembers(b, limit, acc).value;
            && r.rest == AfterMembers(b, last).value
            && ks != [] && Sorted(TextLess, ks) && (last.Some? ==> TextLess(last.value, ks[0]))
            && r.value.Keys == acc.Keys + Elements(ks)
            && (forall k :: k in acc ==> r.value[k] == acc[k])
            && KeysOf(ks, Object(r.value))
            && b == PrintMembers(ks, Object(r.value), AsciiOnly) + [0x7D] + AfterMembers(b, last).value
    decreases |b|, 1
  {
    hide AfterMembers, ReadMembers, Print, TextLess, PrintString, PrintMembers, Above, Sorted;
    var k, x, rest := MemberIs(b, limit, acc, last);
    NewKey(acc, last, k);
    assert rest == [rest[0]] + rest[1..];
    var m := ReadMembers(b, limit, acc).value.value;
    if rest[0] == 0x7D {
      ks := [k];
      SortedOne(k);
      OneMember(k, m);
    } else {
      var more := MembersAre(rest[1..], limit, acc[k := x], Some(k));
      ks := [k] + more;
      assert k in acc[k := x] && m[k] == x;
      SortedCons(k, more);
      MoreMembers(k, more, m);
      assert Elements(ks) == {k} + Elements(more);
    }
  }

  /** The first of recognised members, and what is left after its value. */
  lemma {:induction false} MemberIs(b: Bytes, limit: nat, acc: map<string, Json>, last: Option<string>)
      returns (k: string, x: Json, rest: Bytes)
    requires AfterMembers(b, last).Some? && ReadMembers(b, limit, acc).Some?
    ensures Above(k, last) && rest != [] && |rest| < |b|
    ensures b == PrintString(k, AsciiOnly) + [COLON] + Print(x, AsciiOnly) + rest
    ensures if rest[0] == 0x7D then
              && ReadMembers(b, limit, acc) == Some(Parsed(acc[k := x], rest[1..]))
              && AfterMembers(b, last) == Some(rest[1..])
            else
              && rest[0] == COMMA
              && ReadMembers(b, limit, acc) == ReadMembers(rest[1..], limit, acc[k := x])
              && AfterMembers(b, last) == AfterMembers(rest[1..], Some(k))
    decreases |b|, 0
  {
    hide AfterValue, ReadValue, AfterChars, ReadChars, Print, PrintString, Above;
    KeyIs(b);
    var colon := AfterChars(b[1..]).value;
    k := ReadChars(b[1..]).value.value;
    ValueIs(colon[1..], limit);
    x, rest := ReadValue(colon[1..], limit).value.value, AfterValue(colon[1..]).value;
    assert colon == [COLON] + colon[1..];
  }

  lemma KeyIs(b: Bytes)
    requires b != [] && b[0] == QUOTE && AfterChars(b[1..]).Some? && ReadChars(b[1..]).Some?
    ensures ReadChars(b[1..]).value.rest == AfterChars(b[1..]).value
    ensures b == PrintString(ReadChars(b[1..]).value.value, AsciiOnly) + AfterChars(b[1..]).value
  {
    hide AfterChars, ReadChars;
    CharsAre(b[1..]);
    assert b == [QUOTE] + b[1..];
  }

  /** A key above the last one is new and above all earlier ones. */
  lemma NewKey(acc: map<string, Json>, last: Option<string>, k: string)
    requires Above(k, last)
    requires forall j :: j in acc ==> last.Some? && (j == last.value || TextLess(j, last.value))
    ensures last.Some? ==> TextLess(last.value, k)
    ensures forall j :: j in acc ==> TextLess(j, k)
    ensures k !in acc
  {
    if last.Some? {
      ByteOrderIsCodePointOrder(last.value, k);
      forall j | j in acc ensures TextLess(j, k) {
        if j != last.value {
          LexTransitive(Encode(j), Encode(last.value), Encode(k));
        }
      }
    }
    LexIrreflexive(Encode(k));
  }

  lemma OneMember(k: string, m: map<string, Json>)
    requires k in m
    ensures PrintMembers([k], Object(m), AsciiOnly)
         == PrintString(k, AsciiOnly) + [COLON] + Print(m[k], AsciiOnly)
  {
    hide Print, PrintString;
    assert PrintMembers([k], Object(m), AsciiOnly) == PrintMember(k, Object(m), AsciiOnly);
  }

  lemma MoreMembers(k: string, more: seq<string>, m: map<string, Json>)
    requires k in m && more != [] && KeysOf(more, Object(m))
    ensures KeysOf([k] + more, Object(m))
    ensures PrintMembers([k] + more, Object(m), AsciiOnly)
         == PrintString(k, AsciiOnly) + [COLON] + Print(m[k], AsciiOnly) + [COMMA]
          + PrintMembers(more, Object(m), AsciiOnly)
  {
    hide Print, PrintString;
    assert ([k] + more)[1..] == more;
  }

  lemma SortedOne(k: string)
    ensures Sorted(TextLess, [k])
  {
  }

  lemma SortedCons(k: string, ks: seq<string>)
    requires ks != [] && Sorted(TextLess, ks) && TextLess(k, ks[0])
    ensures Sorted(TextLess, [k] + ks)
  {
    forall j | 0 <= j < |ks| ensures TextLess(k, ks[j]) {
      if j > 0 {
        LexTransitive(Encode(k), Encode(ks[0]), Encode(ks[j]));
      }
    }
  }

  // -- every print is recognised ---------------------------------------------------------------------

  lemma EscapeRecognised(unit: int, before: Bytes, rest: Bytes)
    requires 0 <= unit < 0x1_0000
    ensures EscapedUnit(before + UnicodeEscape(unit) + rest, |before|) == Some(unit)
  {
    var b := before + UnicodeEscape(unit) + rest;
    var i := |before|;
    var e := UnicodeEscape(unit);
    assert b[i] == e[0] && b[i + 1] == e[1] && b[i + 2] == e[2];
    assert b[i + 3] == e[3] && b[i + 4] == e[4] && b[i + 5] == e[5];
    HexDigits(unit);
    HexByteIs(unit / 4096);
    HexByteIs(unit / 256 % 16);
    HexByteIs(unit / 16 % 16);
    HexByteIs(unit % 16);
  }

  lemma HexByteIs(n: Nibble)
    ensures LowerHex(HexByte(n)) && HexValue(HexByte(n)) == n
  {
  }

  lemma CharRecognised(c: char, rest: Bytes)
    ensures AfterChar(EscapeChar(c, AsciiOnly) + rest) == Some(rest)
  {
    hide EscapedUnit, UnicodeEscape;
    var n := c as int;
    var b := EscapeChar(c, AsciiOnly) + rest;
    if ShortEscape(c).Some? {
      assert b[2..] == rest;
    } else if 0x20 <= n <= 0x7E {
      assert b[1..] == rest;
    } else if n <= 0xFFFF {
      var e := UnicodeEscape(n);
      assert b == [] + e + rest && b[6..] == rest;
      EscapeRecognised(n, [], rest);
      EscapeStarts(n);
    } else {
      var v := n - 0x1_0000;
      var (hi, lo) := (0xD800 + v / 1024, 0xDC00 + v % 1024);
      var (x, y) := (UnicodeEscape(hi), UnicodeEscape(lo));
      assert b == [] + x + (y + rest) && b == x + y + rest && b[12..] == rest;
      EscapeRecognised(hi, [], y + rest);
      EscapeRecognised(lo, x, rest);
      EscapeStarts(hi);
    }
  }

  lemma EscapeStarts(unit: int)
    requires 0 <= unit < 0x1_0000
    ensures UnicodeEscape(unit)[0] == 0x5C && UnicodeEscape(unit)[1] == 0x75
  {
  }

  lemma {:induction false} CharsRecognised(s: string, rest: Bytes)
    ensures AfterChars(EscapeAll(s, AsciiOnly) + [QUOTE] + rest) == Some(rest)
  {
    hide AfterChar;
    var b := EscapeAll(s, AsciiOnly) + [QUOTE] + rest;
    if s == "" {
      assert b == [QUOTE] + rest;
    } else {
      var e := EscapeChar(s[0], AsciiOnly);
      var tail := EscapeAll(s[1..], AsciiOnly) + [QUOTE] + rest;
      assert b == e + tail;
      CharRecognised(s[0], tail);
      CharsRecognised(s[1..], rest);
      NoQuoteFirst(s[0]);
    }
  }

  lemma NoQuoteFirst(c: char)
    ensures EscapeChar(c, AsciiOnly)[0] != 0x22
  {
    if c as int > 0xFFFF {
      EscapeStarts(0xD800 + (c as int - 0x1_0000) / 1024);
    }
  }

  lemma NumberRecognised(n: JsonInt, rest: Bytes)
    requires !ExtendsNumber(rest)
    ensures AfterNumber(PrintInt(n) + rest) == Some(rest)
  {
    hide DigitRun, Decimal;
    var t := Decimal(if n < 0 then -n else n);
    var d := t + rest;
    DigitRunOf(t, rest);
    assert d[|t|..] == rest && d[0] == t[0];
    if n < 0 {
      assert (PrintInt(n) + rest)[1..] == d;
      ZeroStart(-n);
    }
  }

  lemma ZeroStart(n: nat)
    requires n > 0
    ensures Decimal(n)[0] != 0x30
  {
  }

  lemma {:induction false} ValueRecognised(v: Json, rest: Bytes)
    requires !ExtendsNumber(rest)
    ensures AfterValue(Print(v, AsciiOnly) + rest) == Some(rest)
    decreases v, 2, 0
  {
    match v
    case Array(_) => ArrayRecognised(v, rest);
    case Object(_) => ObjectRecognised(v, rest);
    case _ => ScalarRecognised(v, rest);
  }

  lemma ScalarRecognised(v: Json, rest: Bytes)
    requires !v.Array? && !v.Object? && !ExtendsNumber(rest)
    ensures AfterValue(Print(v, AsciiOnly) + rest) == Some(rest)
  {
    hide AfterChars, AfterNumber, AfterItems, AfterMembers, PrintInt;
    var b := Print(v, AsciiOnly) + rest;
    FirstByte(v, AsciiOnly);
    assert b[0] == Print(v, AsciiOnly)[0];
    match v
    case Number(n) =>
      NumberRecognised(n, rest);
    case String(s) =>
      assert b[1..] == EscapeAll(s, AsciiOnly) + [QUOTE] + rest;
      CharsRecognised(s, rest);
    case Null =>
      WordIs(b);
      assert b[|NULL|..] == rest;
    case Bool(t) =>
      WordIs(b);
      assert b[|TRUE|..] == rest || b[|FALSE|..] == rest;
    case _ =>
  }

  lemma {:induction false} ArrayRecognised(v: Json, rest: Bytes)
    requires v.Array?
    ensures AfterValue(Print(v, AsciiOnly) + rest) == Some(rest)
    decreases v, 1, 0
  {
    hide AfterItems, PrintItems;
    var b := Print(v, AsciiOnly) + rest;
    var body := PrintItems(v.items, AsciiOnly) + [0x5D] + rest;
    assert b == [0x5B] + body && b[1..] == body;
    if v.items == [] {
      PrintNoItems(AsciiOnly);
      assert b[2..] == rest;
    } else {
      FirstOfItems(v.items, AsciiOnly);
      ItemsRecognised(v.items, rest);
    }
  }

  lemma {:induction false} ItemsRecognised(items: seq<Json>, rest: Bytes)
    requires items != []
    ensures AfterItems(PrintItems(items, AsciiOnly) + [0x5D] + rest) == Some(rest)
    decreases items, 0, 0
  {
    hide AfterValue, Print;
    var more := PrintItems(items[1..], AsciiOnly) + [0x5D] + rest;
    var tail := if |items| == 1 then [0x5D] + rest else [COMMA] + more;
    assert PrintItems(items, AsciiOnly) + [0x5D] + rest == Print(items[0], AsciiOnly) + tail;
    ValueRecognised(items[0], tail);
    if |items| > 1 {
      assert tail[1..] == more;
      ItemsRecognised(items[1..], rest);
    } else {
      assert tail[1..] == rest;
    }
  }

  lemma {:induction false} ObjectRecognised(v: Json, rest: Bytes)
    requires v.Object?
    ensures AfterValue(Print(v, AsciiOnly) + rest) == Some(rest)
    decreases v, 1, 0
  {
    hide AfterMembers, PrintMembers;
    var b := Print(v, AsciiOnly) + rest;
    var ks := SortedKeys(v.members.Keys);
    var body := PrintMembers(ks, v, AsciiOnly) + [0x7D] + rest;
    assert b == [0x7B] + body && b[1..] == body;
    if ks == [] {
      EmptyObject(v, AsciiOnly, 0, rest);
      assert b[2..] == body[1..];
    } else {
      FirstOfMembers(ks, v, AsciiOnly);
      MembersRecognised(ks, v, None, rest);
    }
  }

  lemma {:induction false} MembersRecognised(ks: seq<string>, v: Json, last: Option<string>, rest: Bytes)
    requires ks != [] && KeysOf(ks, v) && Sorted(TextLess, ks)
    requires last.Some? ==> TextLess(last.value, ks[0])
    ensures AfterMembers(PrintMembers(ks, v, AsciiOnly) + [0x7D] + rest, last) == Some(rest)
    decreases v, 0, |ks|
  {
    hide AfterMembers, Print, PrintMember, TextLess;
    var k, x := ks[0], v.members[ks[0]];
    var more := PrintMembers(ks[1..], v, AsciiOnly) + [0x7D] + rest;
    var tail := if |ks| == 1 then [0x7D] + rest else [COMMA] + more;
    assert PrintMembers(ks, v, AsciiOnly) + [0x7D] + rest == PrintMember(k, v, AsciiOnly) + tail;
    ValueRecognised(x, tail);
    MemberRecognised(k, v, last, tail);
    if |ks| > 1 {
      assert tail[1..] == more;
      MembersRecognised(ks[1..], v, Some(k), rest);
    } else {
      assert tail[1..] == rest;
    }
  }

  lemma MemberRecognised(k: string, v: Json, last: Option<string>, tail: Bytes)
    requires v.Object? && k in v.members && tail != [] && (last.Some? ==> TextLess(last.value, k))
    requires AfterValue(Print(v.members[k], AsciiOnly) + tail) == Some(tail)
    ensures var r := AfterMembers(PrintMember(k, v, AsciiOnly) + tail, last);
            && (tail[0] == 0x7D ==> r == Some(tail[1..]))
            && (tail[0] == COMMA ==> r == AfterMembers(tail[1..], Some(k)))
  {
    hide Print, AfterMembers, AfterValue, AfterChars, ReadChars, PrintString, Above, TextLess;
    var value := Print(v.members[k], AsciiOnly) + tail;
    var after := [COLON] + value;
    var b := PrintMember(k, v, AsciiOnly) + tail;
    assert b == PrintString(k, AsciiOnly) + after;
    StringRoundTrip(k, AsciiOnly, after);
    StringRecognised(k, after);
    assert after[0] == COLON && after[1..] == value;
    AboveByText(k, last);
    FirstMember(b, last, k, after, tail);
  }

  /** One step of the recogniser over members, given what its parts return. */
  lemma FirstMember(b: Bytes, last: Option<string>, k: string, after: Bytes, tail: Bytes)
    requires b != [] && b[0] == QUOTE && AfterChars(b[1..]) == Some(after)
    requires ReadChars(b[1..]).Some? && ReadChars(b[1..]).value.value == k
    requires after != [] && after[0] == COLON && AfterValue(after[1..]) == Some(tail)
    requires Above(k, last) && tail != []
    ensures tail[0] == 0x7D ==> AfterMembers(b, last) == Some(tail[1..])
    ensures tail[0] == COMMA ==> AfterMembers(b, last) == AfterMembers(tail[1..], Some(k))
  {
    hide AfterValue, AfterChars, ReadChars, Above;
  }

  lemma AboveByText(k: string, last: Option<string>)
    requires last.Some? ==> TextLess(last.value, k)
    ensures Above(k, last)
  {
    if last.Some? {
      ByteOrderIsCodePointOrder(last.value, k);
    }
  }

  lemma StringRecognised(k: string, rest: Bytes)
    ensures AfterChars((PrintString(k, AsciiOnly) + rest)[1..]) == Some(rest)
  {
    assert (PrintString(k, AsciiOnly) + rest)[1..] == EscapeAll(k, AsciiOnly) + [QUOTE] + rest;
    CharsRecognised(k, rest);
  }

  // -- the canonical text of a value -----------------------------------------------------------------

  /** Canonical text that reads as a value is what the encoder prints for it, and the other way round:
      of all the spellings of a JSON value exactly one is canonical. */
  lemma CanonicalText(v: Json, b: Bytes, limit: nat)
    ensures IsCanonical(b) && ParseDocument(b, limit) == Some(v) <==> b == Print(v, AsciiOnly) && Fits(v, limit)
    ensures IsCanonical(Print(v, AsciiOnly))
  {
    hide AfterValue, ReadValue, Print, Fits;
    ValueRecognised(v, []);
    assert Print(v, AsciiOnly) + [] == Print(v, AsciiOnly);
    DocumentRoundTrip(v, AsciiOnly, limit);
    if IsCanonical(b) && ParseDocument(b, limit) == Some(v) {
      ValueIs(b, limit);
      assert b == Print(v, AsciiOnly) + [];
    }
  }
}
