/** Bytes, machine integers, options, results and the big-endian integer codec
    that every wire layout of the crate is built from. */
module Basics {

  type Byte = b: int | 0 <= b < 256
  type Bytes = seq<Byte>

  const U32_SIZE := 0x1_0000_0000
  const U64_SIZE := 0x1_0000_0000_0000_0000
  type U32 = n: int | 0 <= n < U32_SIZE
  type U64 = n: int | 0 <= n < U64_SIZE

  datatype Option<+T> = None | Some(value: T)

  datatype Result<+T, +E> = Ok(value: T) | Err(error: E)

  /** The bytes of an ASCII literal such as `b"skchat/dm-frame/v1"`. */
  function Ascii(s: string): (b: Bytes)
    requires forall i :: 0 <= i < |s| ==> s[i] as int < 128
    ensures |b| == |s|
    ensures forall i :: 0 <= i < |s| ==> b[i] == s[i] as int
  {
    seq(|s|, i requires 0 <= i < |s| => s[i] as int)
  }

  // -- quotients ---------------------------------------------------------------

  lemma DivUnique(n: nat, m: nat, q: nat, r: nat)
    requires m >= 1 && r < m && n == q * m + r
    ensures n / m == q && n % m == r
  {
    var a, b := n / m, n % m;
    assert n == a * m + b;
    if a != q {
      MulGap(a, q, m);
      assert false;
    }
  }

  lemma MulGap(a: nat, q: nat, m: nat)
    requires a != q
    ensures a * m >= q * m + m || q * m >= a * m + m
  {
    if a > q {
      MulMonotone(q + 1, a, m);
    } else {
      MulMonotone(a + 1, q, m);
    }
  }

  lemma {:induction false} MulMonotone(a: nat, b: nat, m: nat)
    requires a <= b
    ensures a * m <= b * m
    decreases b
  {
    if a < b {
      MulMonotone(a, b - 1, m);
    }
  }

  lemma DivByParts(n: nat, b: nat, p: nat)
    requires b > 0 && p > 0
    ensures b * p > 0 && n / b / p == n / (b * p)
  {
    MulPositive(b, p);
    QuotientOfParts(n, b, p, n / b, n % b, n / b / p, n / b % p);
  }

  lemma QuotientOfParts(n: nat, b: nat, p: nat, q: nat, r: nat, x: nat, y: nat)
    requires n == b * q + r && r < b && q == x * p + y && y < p && b * p > 0
    ensures n / (b * p) == x
  {
    MulAssociates(b, x, p, y);
    PartsBelow(b, p, y, r);
    DivUnique(n, b * p, x, b * y + r);
  }

  lemma MulPositive(b: nat, p: nat)
    requires b > 0 && p > 0
    ensures b * p > 0
  {
  }

  lemma MulAssociates(b: nat, x: nat, p: nat, y: nat)
    ensures b * (x * p + y) == x * (b * p) + b * y
  {
    assert b * (x * p + y) == b * (x * p) + b * y;
    assert b * (x * p) == (b * x) * p == (x * b) * p == x * (b * p);
  }

  lemma PartsBelow(b: nat, p: nat, y: nat, r: nat)
    requires y < p && r < b
    ensures 0 <= b * y + r < b * p
  {
    MulMonotone(y + 1, p, b);
    assert (y + 1) * b == b * y + b && p * b == b * p;
  }

  // -- big-endian integers ----------------------------------------------------

  function Pow256(k: nat): (p: nat)
    ensures p > 0
  {
    if k == 0 then 1 else 256 * Pow256(k - 1)
  }

  lemma Pow256Values()
    ensures Pow256(4) == U32_SIZE
    ensures Pow256(8) == U64_SIZE
  {
    assert Pow256(4) == 256 * (256 * (256 * (256 * Pow256(0))));
    assert Pow256(8) == 256 * (256 * (256 * (256 * Pow256(4))));
  }

  /** `k` big-endian bytes of `n`, dropping higher ones. */
  function BigEndian(n: nat, k: nat): (b: Bytes)
    ensures |b| == k
  {
    if k == 0 then [] else BigEndian(n / 256, k - 1) + [n % 256]
  }

  function FromBigEndian(b: Bytes): (n: nat)
    ensures n < Pow256(|b|)
  {
    if b == [] then 0
    else FromBigEndian(b[..|b| - 1]) * 256 + b[|b| - 1]
  }

  lemma {:induction false} BigEndianRoundTrip(n: nat, k: nat)
    requires n < Pow256(k)
    ensures FromBigEndian(BigEndian(n, k)) == n
  {
    if k > 0 {
      BigEndianRoundTrip(n / 256, k - 1);
      assert BigEndian(n, k)[..k - 1] == BigEndian(n / 256, k - 1);
    }
  }

  lemma {:induction false} BigEndianOnto(b: Bytes)
    ensures BigEndian(FromBigEndian(b), |b|) == b
  {
    if b != [] {
      BigEndianOnto(b[..|b| - 1]);
      assert FromBigEndian(b) / 256 == FromBigEndian(b[..|b| - 1]);
      assert b == b[..|b| - 1] + [b[|b| - 1]];
    }
  }

  /** Byte `i` from the left is the digit of its place: the highest byte comes first. */
  lemma {:induction false} BigEndianAt(n: nat, k: nat, i: nat)
    requires i < k
    ensures BigEndian(n, k)[i] == n / Pow256(k - 1 - i) % 256
  {
    if i < k - 1 {
      BigEndianAt(n / 256, k - 1, i);
      assert BigEndian(n, k)[i] == BigEndian(n / 256, k - 1)[i];
      DivByParts(n, 256, Pow256(k - 2 - i));
    } else {
      assert n / Pow256(0) == n;
    }
  }

  /** `n.to_be_bytes()` of a `u32`. */
  function U32Be(n: U32): (b: Bytes)
    ensures |b| == 4
    ensures FromBigEndian(b) == n
  {
    Pow256Values();
    BigEndianRoundTrip(n, 4);
    BigEndian(n, 4)
  }

  /** `n.to_be_bytes()` of a `u64`. */
  function U64Be(n: U64): (b: Bytes)
    ensures |b| == 8
    ensures FromBigEndian(b) == n
  {
    Pow256Values();
    BigEndianRoundTrip(n, 8);
    BigEndian(n, 8)
  }

  function ReadU32(b: Bytes): (n: U32)
    requires |b| == 4
    ensures U32Be(n) == b
  {
    Pow256Values();
    BigEndianOnto(b);
    FromBigEndian(b)
  }

  function ReadU64(b: Bytes): (n: U64)
    requires |b| == 8
    ensures U64Be(n) == b
  {
    Pow256Values();
    BigEndianOnto(b);
    FromBigEndian(b)
  }

  lemma U32Injective(n: U32, m: U32)
    requires U32Be(n) == U32Be(m)
    ensures n == m
  {
    assert FromBigEndian(U32Be(n)) == n;
  }

  lemma U64Injective(n: U64, m: U64)
    requires U64Be(n) == U64Be(m)
    ensures n == m
  {
    assert FromBigEndian(U64Be(n)) == n;
  }

  /** `len as u32`: the truncating cast of a `usize` length. */
  function AsU32(len: nat): U32 {
    len % U32_SIZE
  }

  /** The growable byte vector (`Vec<u8>`) the encoders append to. */
  class ByteBuffer {
    var bytes: Bytes

    constructor ()
      ensures bytes == []
    {
      bytes := [];
    }

    method Push(b: Byte)
      modifies this
      ensures bytes == old(bytes) + [b]
    {
      bytes := bytes + [b];
    }

    method Extend(bs: Bytes)
      modifies this
      ensures bytes == old(bytes) + bs
    {
      bytes := bytes + bs;
    }
  }
}
