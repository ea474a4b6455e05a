/** The `pqdr1:` wire token of a sealed frame. */
module DmToken {
  import opened Basics
  import opened Base64
  import opened DmState

  const PQDR_SCHEME := "pqdr1:"

  // -- the binary form --------------------------------------------------------------------------

  /** A length cast to `u32`, then the bytes. */
  function LengthPrefixed(b: Bytes): Bytes {
    U32Be(AsU32(|b|)) + b
  }

  function KamBytes(kam: Option<Bytes>): (b: Bytes)
    ensures b != []
  {
    match kam case None => [0] case Some(k) => [1] + LengthPrefixed(k)
  }

  function FrameBytes(f: SealedDmFrame): Bytes {
    U64Be(f.epoch) + (U64Be(f.index) + (LengthPrefixed(f.nonce) + (LengthPrefixed(f.body) + KamBytes(f.kam))))
  }

  function ToToken(f: SealedDmFrame): string {
    PQDR_SCHEME + EncodePadded(FrameBytes(f))
  }

  method AppendPrefixed(bytes: Bytes, blob: ByteBuffer)
    modifies blob
    ensures blob.bytes == old(blob.bytes) + LengthPrefixed(bytes)
  {
    blob.Extend(U32Be(AsU32(|bytes|)));
    blob.Extend(bytes);
  }

  /** A presence flag keeps an absent KAM apart from an empty one. */
  method AppendKam(kam: Option<Bytes>, blob: ByteBuffer)
    modifies blob
    ensures blob.bytes == old(blob.bytes) + KamBytes(kam)
  {
    hide LengthPrefixed;
    match kam {
      case None =>
        blob.Push(0);
      case Some(k) =>
        blob.Push(1);
        AppendPrefixed(k, blob);
    }
  }

  /** `to_token`: the fields appended to one buffer, then base64. */
  method BuildToken(f: SealedDmFrame) returns (token: string)
    ensures token == ToToken(f)
  {
    hide LengthPrefixed, KamBytes, EncodePadded;
    var blob := new ByteBuffer();
    blob.Extend(U64Be(f.epoch));
    blob.Extend(U64Be(f.index));
    AppendPrefixed(f.nonce, blob);
    AppendPrefixed(f.body, blob);
    AppendKam(f.kam, blob);
    assert blob.bytes == FrameBytes(f);
    token := PQDR_SCHEME + EncodePadded(blob.bytes);
  }

  // -- parsing ----------------------------------------------------------------------------------

  /** The first `n` bytes and the rest, or nothing when the blob is too short. */
  function Take(b: Bytes, n: nat): (r: Option<(Bytes, Bytes)>)
    ensures r.Some? <==> n <= |b|
    ensures r.Some? ==> |r.value.0| == n && b == r.value.0 + r.value.1
  {
    if n > |b| then None else Some((b[..n], b[n..]))
  }

  function TakePrefixed(b: Bytes): Option<(Bytes, Bytes)> {
    match Take(b, 4)
    case None => None
    case Some((len, rest)) => Take(rest, ReadU32(len))
  }

  function TakeKam(b: Bytes): Option<(Option<Bytes>, Bytes)> {
    if b == [] then None
    else if b[0] == 0 then Some((None, b[1..]))
    else if b[0] == 1 then
      match TakePrefixed(b[1..])
      case None => None
      case Some((kam, rest)) => Some((Some(kam), rest))
    else None
  }

  /** The frame a blob spells, all of it used up. */
  function ParseFrame(b: Bytes): Option<SealedDmFrame> {
    match Take(b, 8)
    case None => None
    case Some((epoch, b1)) =>
      match Take(b1, 8)
      case None => None
      case Some((index, b2)) =>
        match TakePrefixed(b2)
        case None => None
        case Some((nonce, b3)) =>
          match TakePrefixed(b3)
          case None => None
          case Some((body, b4)) =>
            match TakeKam(b4)
            case None => None
            case Some((kam, b5)) =>
              if b5 != [] then None
              else Some(SealedDmFrame(ReadU64(epoch), ReadU64(index), nonce, body, kam))
  }

  function FromToken(token: string): Result<SealedDmFrame, DmSessionError> {
    if !(PQDR_SCHEME <= token) then Err(BadToken)
    else
      match DecodePadded(token[|PQDR_SCHEME|..])
      case None => Err(BadToken)
      case Some(blob) =>
        match ParseFrame(blob) case None => Err(BadToken) case Some(f) => Ok(f)
  }

  // -- the cursor parser ------------------------------------------------------------------------

  /** The `take!` macro: a chunk at the cursor, which stays within the blob. */
  method TakeAt(blob: Bytes, off: nat, n: nat) returns (chunk: Option<Bytes>, off': nat)
    requires off <= |blob|
    ensures off <= off' <= |blob|
    ensures match Take(blob[off..], n)
            case None => chunk == None && off' == off
            case Some((c, rest)) => chunk == Some(c) && rest == blob[off'..]
  {
    if off + n > |blob| {
      return None, off;
    }
    assert blob[off..][..n] == blob[off..off + n] && blob[off..][n..] == blob[off + n..];
    return Some(blob[off..off + n]), off + n;
  }

  method TakePrefixedAt(blob: Bytes, off: nat) returns (chunk: Option<Bytes>, off': nat)
    requires off <= |blob|
    ensures off <= off' <= |blob|
    ensures match TakePrefixed(blob[off..])
            case None => chunk == None
            case Some((c, rest)) => chunk == Some(c) && rest == blob[off'..]
  {
    var len;
    len, off' := TakeAt(blob, off, 4);
    if len.None? {
      return None, off';
    }
    chunk, off' := TakeAt(blob, off', ReadU32(len.value));
  }

  /** The optional KAM behind its presence flag; `None` is a malformed frame. */
  method TakeKamAt(blob: Bytes, off: nat) returns (kam: Option<Option<Bytes>>, off': nat)
    requires off <= |blob|
    ensures off <= off' <= |blob|
    ensures match TakeKam(blob[off..])
            case None => kam == None
            case Some((k, rest)) => kam == Some(k) && rest == blob[off'..]
  {
    var flag;
    flag, off' := TakeAt(blob, off, 1);
    if flag.None? {
      return None, off';
    }
    assert flag.value[0] == blob[off..][0] && blob[off'..] == blob[off..][1..];
    if flag.value[0] == 0 {
      return Some(None), off';
    } else if flag.value[0] == 1 {
      var bytes;
      bytes, off' := TakePrefixedAt(blob, off');
      return if bytes.Some? then Some(Some(bytes.value)) else None, off';
    }
    return None, off';
  }

  /** `from_token`: a cursor moves over the decoded blob and must end at its end. */
  method ParseToken(token: string) returns (r: Result<SealedDmFrame, DmSessionError>)
    ensures r == FromToken(token)
  {
    hide Take, TakePrefixed, TakeKam, DecodePadded;
    if !(PQDR_SCHEME <= token) {
      return Err(BadToken);
    }
    var decoded := DecodePadded(token[|PQDR_SCHEME|..]);
    if decoded.None? {
      return Err(BadToken);
    }
    var blob, off := decoded.value, 0;
    assert blob[0..] == blob;
    var epoch, index, nonce, body, kam;
    epoch, off := TakeAt(blob, off, 8);
    if epoch.None? { return Err(BadToken); }
    index, off := TakeAt(blob, off, 8);
    if index.None? { return Err(BadToken); }
    nonce, off := TakePrefixedAt(blob, off);
    if nonce.None? { return Err(BadToken); }
    body, off := TakePrefixedAt(blob, off);
    if body.None? { return Err(BadToken); }
    kam, off := TakeKamAt(blob, off);
    if kam.None? || off != |blob| { return Err(BadToken); }
    return Ok(SealedDmFrame(ReadU64(epoch.value), ReadU64(index.value), nonce.value, body.value, kam.value));
  }

  // -- bijection --------------------------------------------------------------------------------

  lemma TakeFront(x: Bytes, rest: Bytes)
    ensures Take(x + rest, |x|) == Some((x, rest))
  {
    assert (x + rest)[..|x|] == x && (x + rest)[|x|..] == rest;
  }

  lemma ShortLength(n: nat)
    requires n < U32_SIZE
    ensures AsU32(n) == n
  {
  }

  /** A length field is honest below 2^32; beyond that it is read back as a shorter chunk. */
  lemma TakePrefixedFront(x: Bytes, rest: Bytes)
    ensures |x| < U32_SIZE ==> TakePrefixed(LengthPrefixed(x) + rest) == Some((x, rest))
    ensures var r := TakePrefixed(LengthPrefixed(x) + rest); r.Some? ==> |r.value.0| == AsU32(|x|)
  {
    hide Take, AsU32;
    var len := U32Be(AsU32(|x|));
    assert LengthPrefixed(x) + rest == len + (x + rest);
    TakeFront(len, x + rest);
    U32Injective(ReadU32(len), AsU32(|x|));
    if |x| < U32_SIZE {
      ShortLength(|x|);
      TakeFront(x, rest);
    }
  }

  /** What was taken is the chunk behind its own length. */
  lemma TakenPrefixed(b: Bytes)
    requires TakePrefixed(b).Some?
    ensures var (x, rest) := TakePrefixed(b).value; |x| < U32_SIZE && b == LengthPrefixed(x) + rest
  {
    hide Take, AsU32;
    var (len, b1) := Take(b, 4).value;
    var (x, rest) := Take(b1, ReadU32(len)).value;
    ShortLength(|x|);
    assert b == len + (x + rest);
  }

  lemma TakenKam(b: Bytes)
    requires TakeKam(b).Some?
    ensures var (kam, rest) := TakeKam(b).value; KamShort(kam) && b == KamBytes(kam) + rest
  {
    hide TakePrefixed, LengthPrefixed;
    assert b == [b[0]] + b[1..];
    if b[0] == 1 {
      TakenPrefixed(b[1..]);
    } else {
      assert KamBytes(None) == [0];
    }
  }

  lemma TakeKamFront(kam: Option<Bytes>)
    ensures TakeKam(KamBytes(kam)) ==
      match kam
      case None => Some((None, []))
      case Some(k) =>
        match TakePrefixed(LengthPrefixed(k))
        case None => None
        case Some((x, rest)) => Some((Some(x), rest))
  {
    hide TakePrefixed, LengthPrefixed;
    var b := KamBytes(kam);
    match kam {
      case None =>
        assert b == [0] && b[1..] == [];
      case Some(k) =>
        assert b[0] == 1 && b[1..] == LengthPrefixed(k);
    }
  }

  predicate KamShort(kam: Option<Bytes>) {
    kam.Some? ==> |kam.value| < U32_SIZE
  }

  lemma KamRoundTrip(kam: Option<Bytes>)
    ensures var r := TakeKam(KamBytes(kam));
            && (KamShort(kam) ==> r == Some((kam, [])))
            && (!KamShort(kam) ==> r.None? || r.value.0 != kam)
  {
    TakeKamFront(kam);
    if kam.Some? {
      TakePrefixedFront(kam.value, []);
      assert LengthPrefixed(kam.value) + [] == LengthPrefixed(kam.value);
    }
  }

  /** Every field fits its `u32` length. */
  predicate FieldsFit(f: SealedDmFrame) {
    |f.nonce| < U32_SIZE && |f.body| < U32_SIZE && KamShort(f.kam)
  }

  /** A frame's binary form reads back as the frame exactly when its lengths survive the cast. */
  lemma FrameRoundTrip(f: SealedDmFrame)
    ensures ParseFrame(FrameBytes(f)) == Some(f) <==> FieldsFit(f)
  {
    hide Take, TakePrefixed, TakeKam, LengthPrefixed, KamBytes;
    var b4 := KamBytes(f.kam);
    var b3 := LengthPrefixed(f.body) + b4;
    var b2 := LengthPrefixed(f.nonce) + b3;
    var b1 := U64Be(f.index) + b2;
    TakeFront(U64Be(f.epoch), b1);
    TakeFront(U64Be(f.index), b2);
    U64Injective(ReadU64(U64Be(f.epoch)), f.epoch);
    U64Injective(ReadU64(U64Be(f.index)), f.index);
    TakePrefixedFront(f.nonce, b3);
    TakePrefixedFront(f.body, b4);
    KamRoundTrip(f.kam);
  }

  /** `from_token(to_token(f)) == f` exactly for frames whose fields are below 2^32 bytes;
      an absent and an empty KAM stay apart. */
  lemma TokenRoundTrip(f: SealedDmFrame)
    ensures FromToken(ToToken(f)) == Ok(f) <==> FieldsFit(f)
  {
    hide ParseFrame, FrameBytes, DecodePadded, EncodePadded;
    assert ToToken(f)[|PQDR_SCHEME|..] == EncodePadded(FrameBytes(f));
    assert PQDR_SCHEME <= ToToken(f);
    PaddedRoundTrip(FrameBytes(f));
    FrameRoundTrip(f);
  }

  lemma ParsedFrameBytes(b: Bytes)
    requires ParseFrame(b).Some?
    ensures FrameBytes(ParseFrame(b).value) == b && FieldsFit(ParseFrame(b).value)
  {
    hide LengthPrefixed, KamBytes, TakePrefixed, TakeKam;
    var (epoch, b1) := Take(b, 8).value;
    var (index, b2) := Take(b1, 8).value;
    var (nonce, b3) := TakePrefixed(b2).value;
    var (body, b4) := TakePrefixed(b3).value;
    var (kam, b5) := TakeKam(b4).value;
    TakenPrefixed(b2);
    TakenPrefixed(b3);
    TakenKam(b4);
    assert KamBytes(kam) + b5 == KamBytes(kam);
  }

  /** Every accepted token is the token of the frame it gives: one text per frame. */
  lemma TokenOnto(token: string)
    requires FromToken(token).Ok?
    ensures ToToken(FromToken(token).value) == token && FieldsFit(FromToken(token).value)
  {
    hide ParseFrame, FrameBytes, DecodePadded, EncodePadded;
    var text := token[|PQDR_SCHEME|..];
    PaddedOnto(text);
    ParsedFrameBytes(DecodePadded(text).value);
    assert token == PQDR_SCHEME + text;
  }
}
