/** Base64 (RFC 4648), strict: canonical padding, zero trailing bits, no foreign characters. */
module Base64 {
  import opened Basics

  type Sextet = n: int | 0 <= n < 64

  datatype Alphabet = Standard | UrlSafe

  // -- bytes to sextets --------------------------------------------------------------------------

  function ToSextets(b: Bytes): (s: seq<Sextet>)
    ensures |s| % 4 != 1
    ensures |s| == 0 <==> b == []
  {
    if |b| == 0 then []
    else if |b| == 1 then [b[0] / 4, b[0] % 4 * 16]
    else if |b| == 2 then [b[0] / 4, b[0] % 4 * 16 + b[1] / 16, b[1] % 16 * 4]
    else [b[0] / 4, b[0] % 4 * 16 + b[1] / 16, b[1] % 16 * 4 + b[2] / 64, b[2] % 64] + ToSextets(b[3..])
  }

  // The three bytes that four sextets spell, each from two neighbours.
  function High(x: Sextet, y: Sextet): Byte { (x as int) * 4 + y / 16 }

  function Middle(x: Sextet, y: Sextet): Byte { (x as int) % 16 * 16 + y / 4 }

  function Low(x: Sextet, y: Sextet): Byte { (x as int) % 4 * 64 + y }

  /** A leftover single sextet or non-zero trailing bits are refused. */
  function FromSextets(s: seq<Sextet>): (b: Option<Bytes>) {
    if |s| == 0 then Some([])
    else if |s| == 1 then None
    else if |s| == 2 then
      if s[1] % 16 != 0 then None else Some([High(s[0], s[1])])
    else if |s| == 3 then
      if s[2] % 4 != 0 then None else Some([High(s[0], s[1]), Middle(s[1], s[2])])
    else
      match FromSextets(s[4..])
      case None => None
      case Some(b) => Some([High(s[0], s[1]), Middle(s[1], s[2]), Low(s[2], s[3])] + b)
  }

  lemma GroupOfBytes(x: Byte, y: Byte, z: Byte)
    ensures High(x / 4, x % 4 * 16 + y / 16) == x
    ensures Middle(x % 4 * 16 + y / 16, y % 16 * 4 + z / 64) == y
    ensures Low(y % 16 * 4 + z / 64, z % 64) == z
    ensures x % 4 * 16 % 16 == 0 && y % 16 * 4 % 4 == 0
  {
  }

  lemma GroupOfSextets(w: Sextet, x: Sextet, y: Sextet, z: Sextet)
    ensures High(w, x) / 4 == w
    ensures High(w, x) % 4 * 16 + Middle(x, y) / 16 == x
    ensures Middle(x, y) % 16 * 4 + Low(y, z) / 64 == y
    ensures Low(y, z) % 64 == z
    ensures x % 16 == 0 ==> High(w, x) % 4 * 16 == x
    ensures y % 4 == 0 ==> Middle(x, y) % 16 * 4 == y
  {
  }

  lemma {:induction false} SextetsRoundTrip(b: Bytes)
    ensures FromSextets(ToSextets(b)) == Some(b)
  {
    hide High, Middle, Low;
    if |b| == 1 {
      GroupOfBytes(b[0], 0, 0);
      assert b[0] % 4 * 16 + 0 / 16 == b[0] % 4 * 16;
      assert b == [b[0]];
    } else if |b| == 2 {
      GroupOfBytes(b[0], b[1], 0);
      assert b[1] % 16 * 4 + 0 / 64 == b[1] % 16 * 4;
      assert b == [b[0], b[1]];
    } else if |b| >= 3 {
      GroupOfBytes(b[0], b[1], b[2]);
      SextetsRoundTrip(b[3..]);
      assert ToSextets(b)[4..] == ToSextets(b[3..]);
      assert b == [b[0], b[1], b[2]] + b[3..];
    }
  }

  lemma {:induction false} SextetsOnto(s: seq<Sextet>)
    requires FromSextets(s).Some?
    ensures ToSextets(FromSextets(s).value) == s
  {
    hide High, Middle, Low;
    if |s| == 2 {
      GroupOfSextets(s[0], s[1], 0, 0);
    } else if |s| == 3 {
      GroupOfSextets(s[0], s[1], s[2], 0);
    } else if |s| >= 4 {
      GroupOfSextets(s[0], s[1], s[2], s[3]);
      SextetsOnto(s[4..]);
      assert FromSextets(s).value[3..] == FromSextets(s[4..]).value;
      assert s == [s[0], s[1], s[2], s[3]] + s[4..];
    }
  }

  // -- sextets to characters ----------------------------------------------------------------------

  function CharOf(a: Alphabet, n: Sextet): char {
    if n < 26 then (0x41 + n) as char
    else if n < 52 then (0x61 + n - 26) as char
    else if n < 62 then (0x30 + n - 52) as char
    else if n == 62 then (if a.Standard? then '+' else '-')
    else (if a.Standard? then '/' else '_')
  }

  function SextetOf(a: Alphabet, c: char): (n: Option<Sextet>)
    ensures n.Some? ==> CharOf(a, n.value) == c
  {
    var v := c as int;
    if 0x41 <= v <= 0x5A then Some(v - 0x41)
    else if 0x61 <= v <= 0x7A then Some(v - 0x61 + 26)
    else if 0x30 <= v <= 0x39 then Some(v - 0x30 + 52)
    else if c == CharOf(a, 62) then Some(62)
    else if c == CharOf(a, 63) then Some(63)
    else None
  }

  function Chars(a: Alphabet, s: seq<Sextet>): (t: string)
    ensures |t| == |s|
  {
    if s == [] then "" else [CharOf(a, s[0])] + Chars(a, s[1..])
  }

  function Sextets(a: Alphabet, t: string): (s: Option<seq<Sextet>>)
    ensures s.Some? ==> |s.value| == |t|
  {
    if t == "" then Some([])
    else
      match (SextetOf(a, t[0]), Sextets(a, t[1..]))
      case (Some(n), Some(rest)) => Some([n] + rest)
      case _ => None
  }

  lemma {:induction false} CharsRoundTrip(a: Alphabet, s: seq<Sextet>)
    ensures Sextets(a, Chars(a, s)) == Some(s)
  {
    if s != [] {
      CharsRoundTrip(a, s[1..]);
      assert Chars(a, s)[1..] == Chars(a, s[1..]);
      assert SextetOf(a, CharOf(a, s[0])) == Some(s[0]);
      assert s == [s[0]] + s[1..];
    }
  }

  lemma {:induction false} CharsOnto(a: Alphabet, t: string)
    requires Sextets(a, t).Some?
    ensures Chars(a, Sextets(a, t).value) == t
  {
    if t != "" {
      CharsOnto(a, t[1..]);
      var s := Sextets(a, t).value;
      assert s[1..] == Sextets(a, t[1..]).value;
      assert t == [t[0]] + t[1..];
    }
  }

  // -- without padding ------------------------------------------------------------------------------

  function EncodeUnpadded(a: Alphabet, b: Bytes): (t: string)
    ensures |t| % 4 != 1
  {
    Chars(a, ToSextets(b))
  }

  function DecodeUnpadded(a: Alphabet, t: string): Option<Bytes> {
    match Sextets(a, t) case None => None case Some(s) => FromSextets(s)
  }

  lemma UnpaddedRoundTrip(a: Alphabet, b: Bytes)
    ensures DecodeUnpadded(a, EncodeUnpadded(a, b)) == Some(b)
  {
    SextetsRoundTrip(b);
    CharsRoundTrip(a, ToSextets(b));
  }

  lemma UnpaddedOnto(a: Alphabet, t: string)
    requires DecodeUnpadded(a, t).Some?
    ensures EncodeUnpadded(a, DecodeUnpadded(a, t).value) == t
  {
    SextetsOnto(Sextets(a, t).value);
    CharsOnto(a, t);
  }

  // -- with padding ----------------------------------------------------------------------------------

  function Pads(n: nat): (t: string)
    ensures |t| == n
  {
    seq(n, i => '=')
  }

  /** Padding that brings `n` characters up to a multiple of four. */
  function PadCount(n: nat): (k: nat)
    ensures k < 4 && (n + k) % 4 == 0
  {
    (4 - n % 4) % 4
  }

  function EncodePadded(b: Bytes): string {
    var t := EncodeUnpadded(Standard, b);
    t + Pads(PadCount(|t|))
  }

  /** One or two trailing `=`. */
  function TrailingPads(t: string): (k: nat)
    ensures k <= 2 && k <= |t|
    ensures t == t[..|t| - k] + Pads(k)
  {
    var n := |t|;
    if n >= 2 && t[n - 1] == '=' && t[n - 2] == '=' then 2
    else if n >= 1 && t[n - 1] == '=' then 1
    else 0
  }

  function DecodePadded(t: string): Option<Bytes> {
    if |t| % 4 != 0 then None else DecodeUnpadded(Standard, t[..|t| - TrailingPads(t)])
  }

  lemma {:induction false} NoPadInside(s: seq<Sextet>)
    ensures forall i :: 0 <= i < |s| ==> Chars(Standard, s)[i] != '='
  {
    if s != [] {
      NoPadInside(s[1..]);
      assert CharOf(Standard, s[0]) != '=';
    }
  }

  lemma PaddedRoundTrip(b: Bytes)
    ensures DecodePadded(EncodePadded(b)) == Some(b)
  {
    hide DecodeUnpadded;
    var t := EncodeUnpadded(Standard, b);
    var k := PadCount(|t|);
    NoPadInside(ToSextets(b));
    var e := t + Pads(k);
    assert forall i :: 0 <= i < |t| ==> e[i] == t[i] != '=';
    assert TrailingPads(e) == k;
    assert e[..|t|] == t;
    UnpaddedRoundTrip(Standard, b);
  }

  lemma PaddedOnto(t: string)
    requires DecodePadded(t).Some?
    ensures EncodePadded(DecodePadded(t).value) == t
  {
    hide DecodeUnpadded, EncodeUnpadded;
    var k := TrailingPads(t);
    var u := t[..|t| - k];
    UnpaddedOnto(Standard, u);
    assert PadCount(|u|) == k;
  }

  // -- alphabet and grouping -------------------------------------------------------------------------

  /** Tables 1 and 2 of RFC 4648. */
  lemma Alphabets(a: Alphabet, n: Sextet)
    ensures CharOf(a, 0) == 'A' && CharOf(a, 26) == 'a' && CharOf(a, 52) == '0'
    ensures n != 25 && n != 51 && n < 61 ==> CharOf(a, n + 1) as int == CharOf(a, n) as int + 1
    ensures CharOf(Standard, 62) == '+' && CharOf(Standard, 63) == '/'
    ensures CharOf(UrlSafe, 62) == '-' && CharOf(UrlSafe, 63) == '_'
  {
  }

  /** The number with the given digits to base 64, highest first. */
  function Number64(w: int, x: int, y: int, z: int): int {
    ((w * 64 + x) * 64 + y) * 64 + z
  }

  function Number256(x: int, y: int, z: int): int {
    (x * 256 + y) * 256 + z
  }

  /** Every three bytes are the four digits of one 24-bit number, highest first. */
  lemma {:induction false} Grouping(b: Bytes, i: nat)
    requires 3 * i + 2 < |b|
    ensures 4 * i + 3 < |ToSextets(b)|
    ensures var s := ToSextets(b);
            Number64(s[4 * i], s[4 * i + 1], s[4 * i + 2], s[4 * i + 3])
              == Number256(b[3 * i], b[3 * i + 1], b[3 * i + 2])
  {
    if i > 0 {
      Grouping(b[3..], i - 1);
    }
  }

  /** One or two bytes left over fill their last digit up with zero bits. */
  lemma {:induction false} LastGroup(b: Bytes)
    ensures var (s, n) := (ToSextets(b), |b| / 3);
            && |s| == n * 4 + (if |b| % 3 == 0 then 0 else |b| % 3 + 1)
            && (|b| % 3 == 1 ==> Number64(0, 0, s[4 * n], s[4 * n + 1]) == Number256(0, 0, b[3 * n]) * 16)
            && (|b| % 3 == 2 ==>
                 Number64(0, s[4 * n], s[4 * n + 1], s[4 * n + 2]) == Number256(0, b[3 * n], b[3 * n + 1]) * 4)
  {
    if |b| >= 3 {
      LastGroup(b[3..]);
    }
  }

  lemma {:induction false} CharsAt(a: Alphabet, s: seq<Sextet>, i: nat)
    requires i < |s|
    ensures Chars(a, s)[i] == CharOf(a, s[i])
  {
    if i > 0 {
      CharsAt(a, s[1..], i - 1);
    }
  }
}
