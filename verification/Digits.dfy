/** Decimal and hexadecimal text: `u64::to_string`, `str::parse`, `hex::encode`, `hex::decode`. */
module Digits {
  import opened Basics
  import opened Utf8

  predicate IsDigit(b: Byte) {
    0x30 <= b <= 0x39
  }

  predicate AllDigits(b: Bytes) {
    forall i :: 0 <= i < |b| ==> IsDigit(b[i])
  }

  /** The decimal text of `n`, without leading zeros. */
  function Decimal(n: nat): (b: Bytes)
    ensures b != [] && AllDigits(b)
    ensures b[0] == 0x30 ==> n == 0 && |b| == 1
  {
    if n < 10 then [0x30 + n] else Decimal(n / 10) + [0x30 + n % 10]
  }

  function FromDigits(b: Bytes): (n: nat)
    requires AllDigits(b)
  {
    if b == [] then 0 else FromDigits(b[..|b| - 1]) * 10 + (b[|b| - 1] - 0x30)
  }

  lemma {:induction false} FromDecimal(n: nat)
    ensures FromDigits(Decimal(n)) == n
  {
    var b := Decimal(n);
    if n >= 10 {
      assert b[..|b| - 1] == Decimal(n / 10);
      FromDecimal(n / 10);
    } else {
      assert b[..0] == [];
    }
  }

  // -- place value --------------------------------------------------------------------

  function Pow10(k: nat): (p: nat)
    ensures p > 0
  {
    if k == 0 then 1 else 10 * Pow10(k - 1)
  }

  /** The digit `i` places from the right of a decimal text counts the tens to the `i`. */
  lemma {:induction false} PlaceValue(n: nat, i: nat)
    requires i < |Decimal(n)|
    ensures Decimal(n)[|Decimal(n)| - 1 - i] as int - 0x30 == n / Pow10(i) % 10
  {
    var d := Decimal(n);
    if i > 0 {
      PlaceValue(n / 10, i - 1);
      assert d[|d| - 1 - i] == Decimal(n / 10)[|Decimal(n / 10)| - 1 - (i - 1)];
      DivByParts(n, 10, Pow10(i - 1));
    } else {
      assert n / Pow10(0) == n;
    }
  }

  /** Length of the longest run of digits at the front. */
  function DigitRun(b: Bytes): (k: nat)
    ensures k <= |b| && AllDigits(b[..k])
    ensures k < |b| ==> !IsDigit(b[k])
  {
    if b == [] || !IsDigit(b[0]) then 0
    else
      var k := 1 + DigitRun(b[1..]);
      assert b[..k] == [b[0]] + b[1..][..k - 1];
      k
  }

  lemma DigitRunOf(ds: Bytes, rest: Bytes)
    requires AllDigits(ds) && (rest == [] || !IsDigit(rest[0]))
    ensures DigitRun(ds + rest) == |ds|
  {
    var k := DigitRun(ds + rest);
    assert forall i :: 0 <= i < |ds| ==> (ds + rest)[i] == ds[i];
    assert rest != [] ==> (ds + rest)[|ds|] == rest[0];
    assert forall i :: 0 <= i < k ==> (ds + rest)[..k][i] == (ds + rest)[i];
  }

  // -- text of a byte string ------------------------------------------------------

  /** The string with the given ASCII bytes. */
  function AsciiString(b: Bytes): (s: string)
    requires forall i :: 0 <= i < |b| ==> b[i] < 0x80
    ensures |s| == |b|
    ensures forall i :: 0 <= i < |b| ==> s[i] as int == b[i]
  {
    seq(|b|, i requires 0 <= i < |b| => b[i] as char)
  }

  lemma {:induction false} EncodeAsciiString(b: Bytes)
    requires forall i :: 0 <= i < |b| ==> b[i] < 0x80
    ensures Encode(AsciiString(b)) == b
  {
    if b != [] {
      assert AsciiString(b)[1..] == AsciiString(b[1..]);
      EncodeAsciiString(b[1..]);
      assert b == [b[0]] + b[1..];
    }
  }

  /** `n.to_string()`. */
  function ToString(n: nat): (s: string) {
    AsciiString(Decimal(n))
  }

  /** `s.parse::<u64>()`: an optional `+`, then digits, within range. */
  function ParseU64(s: string): (r: Option<U64>) {
    var b := Encode(s);
    var d := if b != [] && b[0] == 0x2B then b[1..] else b;
    if d == [] || !AllDigits(d) || FromDigits(d) >= U64_SIZE then None
    else Some(FromDigits(d))
  }

  lemma ParseToString(n: U64)
    ensures ParseU64(ToString(n)) == Some(n)
  {
    EncodeAsciiString(Decimal(n));
    FromDecimal(n);
  }

  /** The texts that parse as `n`: its decimal text, after any zeros, after at most one plus sign. */
  lemma ParseAccepts(s: string, n: U64)
    ensures ParseU64(s) == Some(n) <==> exists plus: bool, k: nat :: s == Padded(plus, k, n)
  {
    if ParseU64(s) == Some(n) {
      var plus, k := PaddedOf(s, n);
    }
    forall plus: bool, k: nat | s == Padded(plus, k, n) ensures ParseU64(s) == Some(n) {
      PaddedParses(plus, k, n);
    }
  }

  function Padded(plus: bool, k: nat, n: nat): string {
    (if plus then "+" else "") + (ZeroText(k) + ToString(n))
  }

  function ZeroText(k: nat): (t: string)
    ensures |t| == k
  {
    seq(k, i => '0')
  }

  function ZeroDigits(k: nat): (d: Bytes)
    ensures AllDigits(d) && |d| == k
  {
    seq(k, i => 0x30)
  }

  lemma {:induction false} LeadingZeros(k: nat, n: nat)
    ensures FromDigits(ZeroDigits(k) + Decimal(n)) == n
  {
    var d := ZeroDigits(k) + Decimal(n);
    var m := |d| - 1;
    if n >= 10 {
      assert d[..m] == ZeroDigits(k) + Decimal(n / 10);
      LeadingZeros(k, n / 10);
    } else {
      assert d[..m] == ZeroDigits(k);
      OnlyZeros(k);
    }
  }

  lemma {:induction false} OnlyZeros(k: nat)
    ensures FromDigits(ZeroDigits(k)) == 0
  {
    if k > 0 {
      assert ZeroDigits(k)[..k - 1] == ZeroDigits(k - 1);
      OnlyZeros(k - 1);
    }
  }

  /** Digits are the decimal text of their number after some zeros. */
  lemma {:induction false} ZerosOf(d: Bytes) returns (k: nat)
    requires d != [] && AllDigits(d)
    ensures d == ZeroDigits(k) + Decimal(FromDigits(d))
    decreases |d|
  {
    var m := |d| - 1;
    assert d == d[..m] + [d[m]];
    if m == 0 {
      assert d[..m] == [];
      k := 0;
    } else {
      k := ZerosOf(d[..m]);
      if FromDigits(d[..m]) == 0 {
        k := k + 1;
        assert d == ZeroDigits(k) + [d[m]];
      } else {
        assert d == ZeroDigits(k) + (Decimal(FromDigits(d[..m])) + [d[m]]);
      }
    }
  }

  lemma AsciiTextOf(s: string, d: Bytes)
    requires AllDigits(d) && Encode(s) == d
    ensures s == AsciiString(d)
  {
    EncodeAsciiString(d);
    EncodeInjective(s, AsciiString(d));
  }

  lemma ZeroPadding(k: nat, n: nat)
    ensures AsciiString(ZeroDigits(k) + Decimal(n)) == ZeroText(k) + ToString(n)
  {
  }

  lemma PaddedParses(plus: bool, k: nat, n: U64)
    ensures ParseU64(Padded(plus, k, n)) == Some(n)
  {
    hide Decimal, FromDigits;
    var d := ZeroDigits(k) + Decimal(n);
    var t := ZeroText(k) + ToString(n);
    ZeroPadding(k, n);
    EncodeAsciiString(d);
    LeadingZeros(k, n);
    assert Encode(t) == d;
    if plus {
      assert "+" + t == ['+'] + t && (['+'] + t)[1..] == t;
      assert Encode("+" + t) == [0x2B] + d;
    } else {
      assert "" + t == t;
    }
  }

  lemma PaddedOf(s: string, n: U64) returns (plus: bool, k: nat)
    requires ParseU64(s) == Some(n)
    ensures s == Padded(plus, k, n)
  {
    hide Decimal, FromDigits;
    var b := Encode(s);
    plus := b[0] == 0x2B;
    var d := if plus then b[1..] else b;
    k := ZerosOf(d);
    ZeroPadding(k, n);
    if plus {
      PlusFirst(s);
      AsciiTextOf(s[1..], d);
      assert s == "+" + s[1..];
    } else {
      AsciiTextOf(s, d);
    }
  }

  lemma PlusFirst(s: string)
    requires s != "" && Encode(s)[0] == 0x2B
    ensures s[0] == '+' && Encode(s)[1..] == Encode(s[1..])
  {
    EncodingForms(s[0]);
  }

  lemma ToStringInjective(n: U64, m: U64)
    requires ToString(n) == ToString(m)
    ensures n == m
  {
    ParseToString(n);
    ParseToString(m);
  }

  // -- hexadecimal ------------------------------------------------------------------

  type Nibble = n: int | 0 <= n < 16

  function HexDigit(n: Nibble): (c: char)
    ensures c as int < 0x80
  {
    if n < 10 then (0x30 + n) as char else (0x57 + n) as char
  }

  function FromHexDigit(c: char): (n: Option<Nibble>) {
    var v := c as int;
    if 0x30 <= v <= 0x39 then Some(v - 0x30)
    else if 0x61 <= v <= 0x66 then Some(v - 0x57)
    else if 0x41 <= v <= 0x46 then Some(v - 0x37)
    else None
  }

  lemma FromHexDigitOf(n: Nibble)
    ensures FromHexDigit(HexDigit(n)) == Some(n)
  {
  }

  /** `hex::encode`: lower case. */
  function HexEncode(b: Bytes): (s: string)
    ensures |s| == 2 * |b|
  {
    if b == [] then "" else [HexDigit(b[0] / 16), HexDigit(b[0] % 16)] + HexEncode(b[1..])
  }

  /** `hex::decode`: either case, an even number of digits. */
  function HexDecode(s: string): (r: Option<Bytes>)
    ensures r.Some? ==> 2 * |r.value| == |s|
  {
    if s == "" then Some([])
    else if |s| == 1 then None
    else
      match (FromHexDigit(s[0]), FromHexDigit(s[1]), HexDecode(s[2..]))
      case (Some(h), Some(l), Some(b)) => Some([h as int * 16 + l as int] + b)
      case _ => None
  }

  lemma {:induction false} HexRoundTrip(b: Bytes)
    ensures HexDecode(HexEncode(b)) == Some(b)
  {
    if b != [] {
      var s := HexEncode(b);
      assert s[2..] == HexEncode(b[1..]);
      HexRoundTrip(b[1..]);
      FromHexDigitOf(b[0] / 16);
      FromHexDigitOf(b[0] % 16);
      assert b == [b[0]] + b[1..];
    }
  }

  /** The digits of a nibble, and what a digit of either case stands for. */
  lemma HexAlphabet(c: char, n: Nibble)
    ensures HexDigit(n) == "0123456789abcdef"[n]
    ensures FromHexDigit(c) == Some(n) <==> c == "0123456789abcdef"[n] || c == "0123456789ABCDEF"[n]
  {
  }

  /** Byte `i` is spelled by digits `2i`, the higher one, and `2i + 1`. */
  lemma {:induction false} HexEncodeAt(b: Bytes, i: nat)
    requires i < |b|
    ensures HexEncode(b)[2 * i] == "0123456789abcdef"[b[i] / 16]
    ensures HexEncode(b)[2 * i + 1] == "0123456789abcdef"[b[i] % 16]
  {
    hide HexDigit;
    if i == 0 {
      HexAlphabet('0', b[0] / 16);
      HexAlphabet('0', b[0] % 16);
    } else {
      HexEncodeAt(b[1..], i - 1);
    }
  }

  /** Exactly the texts of an even number of hexadecimal digits decode, pair by pair. */
  lemma {:induction false} HexDecodes(s: string)
    ensures HexDecode(s).Some? <==> |s| % 2 == 0 && forall i :: 0 <= i < |s| ==> FromHexDigit(s[i]).Some?
    ensures HexDecode(s).Some? ==> forall i :: 0 <= i < |HexDecode(s).value| ==>
      HexDecode(s).value[i] == FromHexDigit(s[2 * i]).value as int * 16 + FromHexDigit(s[2 * i + 1]).value as int
  {
    hide FromHexDigit;
    if |s| >= 2 {
      HexDecodes(s[2..]);
      assert forall i :: 2 <= i < |s| ==> s[i] == s[2..][i - 2];
    }
  }
}
