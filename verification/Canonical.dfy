/** The canonical encoder of `pqroute`: it appends to a byte buffer, sorting keys on the way. */
module Canonical {
  import opened Basics
  import opened Order
  import opened Utf8
  import opened Json
  import opened JsonLaws

  method PushUnicodeEscape(unit: int, out: ByteBuffer)
    requires 0 <= unit < 0x1_0000
    modifies out
    ensures out.bytes == old(out.bytes) + UnicodeEscape(unit)
  {
    out.Extend([BACKSLASH, 0x75]);
    out.Push(HexByte(unit / 4096));
    out.Push(HexByte(unit / 256 % 16));
    out.Push(HexByte(unit / 16 % 16));
    out.Push(HexByte(unit % 16));
  }

  method EncodeCharAscii(c: char, out: ByteBuffer)
    modifies out
    ensures out.bytes == old(out.bytes) + EscapeChar(c, AsciiOnly)
  {
    var n := c as int;
    if ShortEscape(c).Some? {
      out.Extend([BACKSLASH, ShortEscape(c).value]);
    } else if 0x20 <= n <= 0x7E {
      out.Push(n);
    } else if n <= 0xFFFF {
      PushUnicodeEscape(n, out);
    } else {
      var v := n - 0x1_0000;
      PushUnicodeEscape(0xD800 + v / 1024, out);
      PushUnicodeEscape(0xDC00 + v % 1024, out);
    }
  }

  method EncodeStringAscii(s: string, out: ByteBuffer)
    modifies out
    ensures out.bytes == old(out.bytes) + PrintString(s, AsciiOnly)
  {
    out.Push(QUOTE);
    EncodeChars(s, out);
    out.Push(QUOTE);
  }

  /** The character loop between the quotes. */
  method EncodeChars(s: string, out: ByteBuffer)
    modifies out
    ensures out.bytes == old(out.bytes) + EscapeAll(s, AsciiOnly)
  {
    hide EscapeChar;
    for i := 0 to |s|
      invariant out.bytes == old(out.bytes) + EscapeAll(s[..i], AsciiOnly)
    {
      EscapeSnoc(s[..i], s[i]);
      assert s[..i + 1] == s[..i] + [s[i]];
      EncodeCharAscii(s[i], out);
    }
    assert s[..|s|] == s;
  }

  lemma {:induction false} EscapeSnoc(s: string, c: char)
    ensures EscapeAll(s + [c], AsciiOnly) == EscapeAll(s, AsciiOnly) + EscapeChar(c, AsciiOnly)
  {
    if s != "" {
      assert (s + [c])[1..] == s[1..] + [c];
      EscapeSnoc(s[1..], c);
    }
  }

  /** The keys in whatever order the map yields them. */
  method ListKeys(members: map<string, Json>) returns (ks: seq<string>)
    ensures Distinct(ks) && Elements(ks) == members.Keys
  {
    ks := [];
    var left := members.Keys;
    while left != {}
      invariant Distinct(ks) && left <= members.Keys
      invariant Elements(ks) == members.Keys - left
      decreases left
    {
      var k :| k in left;
      assert k !in Elements(ks);
      assert Elements(ks + [k]) == Elements(ks) + {k};
      ks := ks + [k];
      left := left - {k};
    }
  }

  /** The keys collected and sorted. */
  method CollectKeys(members: map<string, Json>) returns (keys: seq<string>)
    ensures keys == SortedKeys(members.Keys)
    ensures forall k :: k in keys ==> k in members
  {
    var listed := ListKeys(members);
    SortGivesSortedKeys(listed);
    keys := Sort(TextLess, listed);
    assert forall k :: k in keys ==> k in Elements(keys);
  }

  method CanonicalInto(v: Json, out: ByteBuffer)
    modifies out
    ensures out.bytes == old(out.bytes) + Print(v, AsciiOnly)
    decreases v, 1, 0
  {
    match v
    case Null => out.Extend(NULL);
    case Bool(b) => out.Extend(if b then TRUE else FALSE);
    case Number(n) => out.Extend(PrintInt(n));
    case String(s) => EncodeStringAscii(s, out);
    case Array(items) => ArrayInto(v, out);
    case Object(members) => ObjectInto(v, out);
  }

  method ArrayInto(v: Json, out: ByteBuffer)
    requires v.Array?
    modifies out
    ensures out.bytes == old(out.bytes) + Print(v, AsciiOnly)
    decreases v, 0, 1
  {
    hide PrintItems;
    out.Push(0x5B);
    ItemsInto(v.items, out);
    out.Push(0x5D);
  }

  /** The keys that the printed object lists, in that order. */
  method ObjectKeys(v: Json) returns (keys: seq<string>)
    requires v.Object?
    ensures KeysOf(keys, v)
    ensures Print(v, AsciiOnly) == [0x7B] + PrintMembers(keys, v, AsciiOnly) + [0x7D]
  {
    hide PrintMembers;
    keys := CollectKeys(v.members);
  }

  method ObjectInto(v: Json, out: ByteBuffer)
    requires v.Object?
    modifies out
    ensures out.bytes == old(out.bytes) + Print(v, AsciiOnly)
    decreases v, 0, 1
  {
    hide Print, PrintMembers;
    var keys := ObjectKeys(v);
    out.Push(0x7B);
    MembersInto(keys, v, out);
    out.Push(0x7D);
  }

  /** The element loop of the array case. */
  method ItemsInto(items: seq<Json>, out: ByteBuffer)
    modifies out
    ensures out.bytes == old(out.bytes) + PrintItems(items, AsciiOnly)
    decreases items, 0, 0
  {
    hide Print, PrintItems;
    PrintNoItems(AsciiOnly);
    for i := 0 to |items|
      invariant out.bytes == old(out.bytes) + PrintItems(items[..i], AsciiOnly)
    {
      ItemsSnoc(items[..i], items[i]);
      assert items[..i + 1] == items[..i] + [items[i]];
      if i > 0 {
        out.Push(COMMA);
      }
      CanonicalInto(items[i], out);
    }
    assert items[..|items|] == items;
  }

  /** The member loop of the object case. */
  method MembersInto(keys: seq<string>, v: Json, out: ByteBuffer)
    requires KeysOf(keys, v)
    modifies out
    ensures out.bytes == old(out.bytes) + PrintMembers(keys, v, AsciiOnly)
    decreases v, 0, 0
  {
    hide Print, PrintMembers, PrintString;
    PrintNoMembers(v, AsciiOnly);
    for i := 0 to |keys|
      invariant KeysOf(keys[..i], v)
      invariant out.bytes == old(out.bytes) + PrintMembers(keys[..i], v, AsciiOnly)
    {
      assert keys[..i + 1] == keys[..i] + [keys[i]];
      MembersSnoc(keys[..i], keys[i], v);
      if i > 0 {
        out.Push(COMMA);
      }
      EncodeStringAscii(keys[i], out);
      out.Push(COLON);
      CanonicalInto(v.members[keys[i]], out);
    }
    assert keys[..|keys|] == keys;
  }

  lemma PrintNoMembers(v: Json, e: Escaping)
    requires v.Object?
    ensures PrintMembers([], v, e) == []
  {
  }

  lemma {:induction false} ItemsSnoc(items: seq<Json>, x: Json)
    ensures PrintItems(items + [x], AsciiOnly)
         == PrintItems(items, AsciiOnly) + (if items == [] then [] else [COMMA]) + Print(x, AsciiOnly)
  {
    if items != [] {
      assert (items + [x])[1..] == items[1..] + [x];
      ItemsSnoc(items[1..], x);
    }
  }

  lemma {:induction false} MembersSnoc(ks: seq<string>, k: string, v: Json)
    requires KeysOf(ks + [k], v)
    ensures KeysOf(ks, v)
    ensures PrintMembers(ks + [k], v, AsciiOnly)
         == PrintMembers(ks, v, AsciiOnly) + (if ks == [] then [] else [COMMA]) + PrintMember(k, v, AsciiOnly)
  {
    hide PrintMember;
    assert forall x :: x in ks ==> x in ks + [k];
    if ks != [] {
      assert (ks + [k])[1..] == ks[1..] + [k];
      MembersSnoc(ks[1..], k, v);
    }
  }

  /** `canonical`. */
  method Encode(v: Json) returns (bytes: Bytes)
    ensures bytes == Print(v, AsciiOnly)
  {
    var out := new ByteBuffer();
    CanonicalInto(v, out);
    bytes := out.bytes;
  }
}
