/** UTF-8 (RFC 3629): strings are sequences of Unicode scalar values, as in Rust's `str`. */
module Utf8 {
  import opened Basics
  import opened Order

  /** A value read off the front of a byte string, and what follows it. */
  datatype Parsed<+T> = Parsed(value: T, rest: Bytes)

  predicate IsScalar(n: int) {
    0 <= n < 0xD800 || 0xE000 <= n < 0x110000
  }

  function EncodeChar(c: char): (b: Bytes)
    ensures 1 <= |b| <= 4
  {
    var n := c as int;
    var u := n / 64;
    var v := u / 64;
    if n < 0x80 then [n]
    else if n < 0x800 then [0xC0 + u, 0x80 + n % 64]
    else if n < 0x1_0000 then [0xE0 + v, 0x80 + u % 64, 0x80 + n % 64]
    else [0xF0 + v / 64, 0x80 + v % 64, 0x80 + u % 64, 0x80 + n % 64]
  }

  function Encode(s: string): Bytes {
    if s == [] then [] else EncodeChar(s[0]) + Encode(s[1..])
  }

  function CodePoints(s: string): (ns: seq<int>)
    ensures |ns| == |s|
    ensures forall i :: 0 <= i < |s| ==> ns[i] == s[i] as int
  {
    seq(|s|, i requires 0 <= i < |s| => s[i] as int)
  }

  // -- strict decoding ----------------------------------------------------------

  /** Byte `i` of `b` as the six payload bits of a continuation byte, or -1. */
  function Continuation(b: Bytes, i: nat): (n: int)
    ensures -1 <= n < 64
    ensures n >= 0 ==> i < |b| && b[i] == 0x80 + n
  {
    if i < |b| && 0x80 <= b[i] < 0xC0 then b[i] - 0x80 else -1
  }

  function Scalar(n: int, least: int, rest: Bytes): (r: Option<Parsed<char>>)
    ensures r.Some? ==> r.value.rest == rest && r.value.value as int == n >= least
  {
    if n >= least && IsScalar(n) then Some(Parsed(n as char, rest)) else None
  }

  /** One character off the front; overlong forms and surrogates are refused. */
  function DecodeChar(b: Bytes): (r: Option<Parsed<char>>)
    ensures r.Some? ==> |r.value.rest| < |b|
  {
    if b == [] then None
    else if b[0] < 0x80 then Scalar(b[0], 0, b[1..])
    else
      var x, y, z := Continuation(b, 1), Continuation(b, 2), Continuation(b, 3);
      if 0xC0 <= b[0] < 0xE0 then
        if x < 0 then None else Scalar((b[0] - 0xC0) * 64 + x, 0x80, b[2..])
      else if 0xE0 <= b[0] < 0xF0 then
        if x < 0 || y < 0 then None else Scalar((b[0] - 0xE0) * 4096 + x * 64 + y, 0x800, b[3..])
      else if 0xF0 <= b[0] < 0xF8 then
        if x < 0 || y < 0 || z < 0 then None
        else Scalar((b[0] - 0xF0) * 262144 + x * 4096 + y * 64 + z, 0x1_0000, b[4..])
      else None
  }

  lemma DecodeEncodeChar(c: char, rest: Bytes)
    ensures DecodeChar(EncodeChar(c) + rest) == Some(Parsed(c, rest))
  {
    var p := EncodeChar(c);
    var b := p + rest;
    assert b[|p|..] == rest;
    assert b[0] == p[0];
    if |p| == 2 {
      assert Continuation(b, 1) == p[1] - 0x80;
    } else if |p| == 3 {
      assert Continuation(b, 1) == p[1] - 0x80 && Continuation(b, 2) == p[2] - 0x80;
    } else if |p| == 4 {
      assert Continuation(b, 1) == p[1] - 0x80 && Continuation(b, 2) == p[2] - 0x80;
      assert Continuation(b, 3) == p[3] - 0x80;
    }
  }

  /** Four groups of six bits each, highest first. */
  function Bits(w: int, x: int, y: int, z: int): int {
    ((w * 64 + x) * 64 + y) * 64 + z
  }

  predicate IsContinuation(x: Byte) {
    0x80 <= x <= 0xBF
  }

  /** The table of section 3 of RFC 3629: length, lead byte, and the bits that make up the scalar value. */
  lemma EncodingForms(c: char)
    ensures var (b, n) := (EncodeChar(c), c as int);
            if n <= 0x7F then b == [n]
            else if n <= 0x7FF then
              |b| == 2 && 0xC2 <= b[0] <= 0xDF && IsContinuation(b[1]) && n == Bits(0, 0, b[0], b[1]) - 0x3080
            else if n <= 0xFFFF then
              && |b| == 3 && 0xE0 <= b[0] <= 0xEF && IsContinuation(b[1]) && IsContinuation(b[2])
              && n == Bits(0, b[0], b[1], b[2]) - 0xE_2080
            else
              && |b| == 4 && 0xF0 <= b[0] <= 0xF4
              && IsContinuation(b[1]) && IsContinuation(b[2]) && IsContinuation(b[3])
              && n == Bits(b[0], b[1], b[2], b[3]) - 0x3C8_2080
  {
  }

  lemma {:induction false} EncodeInjective(s: string, t: string)
    requires Encode(s) == Encode(t)
    ensures s == t
  {
    if s != [] && t != [] {
      DecodeEncodeChar(s[0], Encode(s[1..]));
      DecodeEncodeChar(t[0], Encode(t[1..]));
      EncodeInjective(s[1..], t[1..]);
      assert s == [s[0]] + s[1..] && t == [t[0]] + t[1..];
    }
  }

  // -- byte order is code-point order --------------------------------------------

  lemma CharOrder(c: char, d: char, x: Bytes, y: Bytes)
    requires c as int < d as int
    ensures LexLess(EncodeChar(c) + x, EncodeChar(d) + y)
  {
    var p, q := EncodeChar(c), EncodeChar(d);
    var k := FirstDifference(c, d);
    LexAt(p + x, q + y, k);
  }

  /** Where the encodings of `c < d` part: the smaller byte belongs to `c`. */
  lemma FirstDifference(c: char, d: char) returns (k: nat)
    requires c as int < d as int
    ensures k < |EncodeChar(c)| && k < |EncodeChar(d)|
    ensures EncodeChar(c)[..k] == EncodeChar(d)[..k] && EncodeChar(c)[k] < EncodeChar(d)[k]
  {
    var n, m := c as int, d as int;
    var p, q := EncodeChar(c), EncodeChar(d);
    DigitOrder(n, m);
    DigitOrder(n / 64, m / 64);
    DigitOrder(n / 64 / 64, m / 64 / 64);
    if |EncodeChar(c)| != |EncodeChar(d)| || |EncodeChar(c)| == 1 {
      k := 0;
    } else if n / 64 == m / 64 {
      k := |EncodeChar(c)| - 1;
    } else if |EncodeChar(c)| == 2 {
      k := 0;
    } else if n / 64 / 64 == m / 64 / 64 {
      k := |EncodeChar(c)| - 2;
    } else if |EncodeChar(c)| == 3 || n / 64 / 64 / 64 != m / 64 / 64 / 64 {
      k := 0;
    } else {
      k := 1;
    }
  }

  lemma DigitOrder(n: nat, m: nat)
    requires n <= m
    ensures n / 64 <= m / 64
    ensures n < m && n / 64 == m / 64 ==> n % 64 < m % 64
  {
  }

  lemma LexAt(a: seq<int>, b: seq<int>, k: nat)
    requires k < |a| && k < |b| && a[..k] == b[..k] && a[k] < b[k]
    ensures LexLess(a, b)
  {
    assert a == a[..k] + a[k..] && b == a[..k] + b[k..];
    LexPrefix(a[..k], a[k..], b[k..]);
  }

  /** The byte-wise order of two strings is their order by code points. */
  lemma {:induction false} ByteOrderIsCodePointOrder(s: string, t: string)
    ensures LexLess(Encode(s), Encode(t)) == LexLess(CodePoints(s), CodePoints(t))
  {
    if s != [] && t != [] {
      assert CodePoints(s)[1..] == CodePoints(s[1..]) && CodePoints(t)[1..] == CodePoints(t[1..]);
      if s[0] == t[0] {
        LexPrefix(EncodeChar(s[0]), Encode(s[1..]), Encode(t[1..]));
        ByteOrderIsCodePointOrder(s[1..], t[1..]);
      } else if s[0] < t[0] {
        CharOrder(s[0], t[0], Encode(s[1..]), Encode(t[1..]));
      } else {
        CharOrder(t[0], s[0], Encode(t[1..]), Encode(s[1..]));
        LexAsymmetric(Encode(t), Encode(s));
      }
    }
  }

  lemma LexAsymmetric(a: seq<int>, b: seq<int>)
    requires LexLess(a, b)
    ensures !LexLess(b, a)
  {
    if LexLess(b, a) {
      LexTransitive(a, b, a);
      LexIrreflexive(a);
    }
  }

  /** Rust's `Ord` on strings: the order of the UTF-8 bytes. */
  predicate TextLess(a: string, b: string) {
    LexLess(Encode(a), Encode(b))
  }

  lemma TextOrderIsStrict(ks: set<string>)
    ensures StrictOrderOn(TextLess, ks)
  {
    forall a | a in ks ensures !TextLess(a, a) {
      LexIrreflexive(Encode(a));
    }
    forall a, b, c | a in ks && b in ks && c in ks && TextLess(a, b) && TextLess(b, c) ensures TextLess(a, c) {
      LexTransitive(Encode(a), Encode(b), Encode(c));
    }
    forall a, b | a in ks && b in ks && a != b ensures TextLess(a, b) || TextLess(b, a) {
      if Encode(a) == Encode(b) {
        EncodeInjective(a, b);
      }
      LexTotal(Encode(a), Encode(b));
    }
  }

  lemma FirstCharDecides(a: string, b: string)
    requires a != "" && b != "" && a[0] < b[0]
    ensures TextLess(a, b)
  {
    CharOrder(a[0], b[0], Encode(a[1..]), Encode(b[1..]));
  }
}
