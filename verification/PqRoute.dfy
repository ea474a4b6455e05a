/** The routing envelope: a clear header framed before a sealed inner part, and bound to it. */
module PqRoute {
  import opened Basics
  import opened Crypto
  import opened Kem
  import opened Ratchet
  import opened Json
  import opened JsonLaws
  import opened JsonPrefix
  import Canonical

  const ROUTE_SUITE: Bytes := Ascii("pqroute1")
  const INFO_WRAP: Bytes := Ascii("skcomms/pqroute/wrap/v1")
  const LEN_PREFIX := 4
  const SEALED_MIN_LEN := CIPHERTEXT_LEN + NONCE_LEN + TAG_LEN

  datatype PqRouteError =
    | Format
    | OpenError
    | KemError(kem: KemError)

  ghost function CanonicalBytes(v: Json): Bytes {
    Print(v, AsciiOnly)
  }

  // -- framing -----------------------------------------------------------------------------------

  /** `hdr_len ‖ header ‖ sealed`; the length is cast to `u32`. */
  function Frame(header: Bytes, sealed: Bytes): Bytes {
    U32Be(AsU32(|header|)) + header + sealed
  }

  function SplitOuter(blob: Bytes): (r: Option<(Bytes, Bytes)>)
    ensures r.Some? ==> blob == Frame(r.value.0, r.value.1)
  {
    if |blob| < LEN_PREFIX then None
    else
      var end := LEN_PREFIX + ReadU32(blob[..LEN_PREFIX]);
      if end > |blob| then None
      else
        assert blob == blob[..LEN_PREFIX] + blob[LEN_PREFIX..end] + blob[end..];
        Some((blob[LEN_PREFIX..end], blob[end..]))
  }

  /** A frame splits after the length that the cast left of its header's. */
  lemma SplitOfFrame(header: Bytes, sealed: Bytes)
    ensures var n := AsU32(|header|);
            SplitOuter(Frame(header, sealed)) == Some((header[..n], header[n..] + sealed))
  {
    var blob := Frame(header, sealed);
    var n := AsU32(|header|);
    assert blob[..LEN_PREFIX] == U32Be(n);
    U32Injective(ReadU32(U32Be(n)), n);
    assert blob[LEN_PREFIX..LEN_PREFIX + n] == header[..n];
    assert blob[LEN_PREFIX + n..] == header[n..] + sealed;
  }

  /** It splits back into its parts exactly when the header's length survives the cast. */
  lemma SplitFrame(header: Bytes, sealed: Bytes)
    ensures SplitOuter(Frame(header, sealed)) == Some((header, sealed)) <==> |header| < U32_SIZE
  {
    hide SplitOuter, Frame;
    SplitOfFrame(header, sealed);
    if |header| < U32_SIZE {
      assert header[..|header|] == header && header[|header|..] + sealed == sealed;
    }
  }

  // -- sealing and opening -------------------------------------------------------------------------

  function BuildAad(header: Bytes): Bytes {
    ROUTE_SUITE + [0x7C] + header
  }

  function DeriveWrapKey(p: Primitives, shared: Bytes, aad: Bytes): Bytes {
    p.hkdf(shared, [], INFO_WRAP + [0x7C] + aad)
  }

  /** `meta_len ‖ metadata ‖ content`. */
  ghost function Inner(metadata: Json, content: Bytes): Bytes {
    Frame(CanonicalBytes(metadata), content)
  }

  ghost function SealRouted(p: Primitives, metadata: Json, content: Bytes, pub: Bytes, header: Json, c: WrapCoins)
    : Result<Bytes, PqRouteError>
  {
    if |pub| != PUBLIC_KEY_LEN then Err(Format)
    else
      var aad := BuildAad(CanonicalBytes(header));
      match HybridEncap(p, pub, c.ephemeral, c.encaps)
      case Err(e) => Err(KemError(e))
      case Ok((ct, shared)) =>
        match p.seal(DeriveWrapKey(p, shared, aad), c.nonce, Inner(metadata, content), aad)
        case None => Err(Format)
        case Some(body) => Ok(Frame(CanonicalBytes(header), ct + c.nonce + body))
  }

  function ReadRouteHeader(blob: Bytes, limit: nat): Result<Json, PqRouteError> {
    match SplitOuter(blob)
    case None => Err(Format)
    case Some((header, _)) =>
      match ParseDocument(header, limit) case None => Err(Format) case Some(v) => Ok(v)
  }

  ghost function ReplaceRouteHeader(blob: Bytes, header: Json): Result<Bytes, PqRouteError> {
    match SplitOuter(blob)
    case None => Err(Format)
    case Some((_, sealed)) => Ok(Frame(CanonicalBytes(header), sealed))
  }

  /** The metadata and content of a decrypted inner part. */
  function ReadInner(inner: Bytes, limit: nat): Result<(Json, Bytes), PqRouteError> {
    match SplitOuter(inner)
    case None => Err(OpenError)
    case Some((metadata, content)) =>
      match ParseDocument(metadata, limit) case None => Err(OpenError) case Some(v) => Ok((v, content))
  }

  /** Decrypts the sealed part under associated data rebuilt from the header received. */
  function OpenSealed(p: Primitives, header: Bytes, sealed: Bytes, priv: Bytes): Result<Bytes, PqRouteError>
    requires |sealed| >= SEALED_MIN_LEN
  {
    var aad := BuildAad(header);
    match HybridDecap(p, sealed[..CIPHERTEXT_LEN], priv)
    case Err(_) => Err(OpenError)
    case Ok(shared) =>
      var nonce := sealed[CIPHERTEXT_LEN..CIPHERTEXT_LEN + NONCE_LEN];
      match p.open(DeriveWrapKey(p, shared, aad), nonce, sealed[CIPHERTEXT_LEN + NONCE_LEN..], aad)
      case None => Err(OpenError)
      case Some(inner) => Ok(inner)
  }

  function OpenRouted(p: Primitives, blob: Bytes, priv: Bytes, limit: nat): Result<(Json, Json, Bytes), PqRouteError> {
    match SplitOuter(blob)
    case None => Err(Format)
    case Some((header, sealed)) =>
      if |sealed| < SEALED_MIN_LEN then Err(Format)
      else
        match ParseDocument(header, limit)
        case None => Err(Format)
        case Some(route) =>
          match OpenSealed(p, header, sealed, priv)
          case Err(e) => Err(e)
          case Ok(inner) =>
            match ReadInner(inner, limit) case Err(e) => Err(e) case Ok((v, content)) => Ok((route, v, content))
  }

  // -- the encoders as they append -------------------------------------------------------------------

  method BuildFrame(header: Bytes, sealed: Bytes) returns (blob: Bytes)
    ensures blob == Frame(header, sealed)
  {
    var out := new ByteBuffer();
    out.Extend(U32Be(AsU32(|header|)));
    out.Extend(header);
    out.Extend(sealed);
    blob := out.bytes;
  }

  method Seal(p: Primitives, metadata: Json, content: Bytes, pub: Bytes, header: Json, c: WrapCoins)
      returns (r: Result<Bytes, PqRouteError>)
    ensures r == SealRouted(p, metadata, content, pub, header, c)
  {
    if |pub| != PUBLIC_KEY_LEN {
      return Err(Format);
    }
    var routeBytes := Canonical.Encode(header);
    var metaBytes := Canonical.Encode(metadata);
    var inner := BuildFrame(metaBytes, content);
    var aad := BuildAad(routeBytes);
    var encapsulated := HybridEncap(p, pub, c.ephemeral, c.encaps);
    if encapsulated.Err? {
      return Err(KemError(encapsulated.error));
    }
    var (ct, shared) := encapsulated.value;
    var body := p.seal(DeriveWrapKey(p, shared, aad), c.nonce, inner, aad);
    if body.None? {
      return Err(Format);
    }
    var blob := BuildFrame(routeBytes, ct + c.nonce + body.value);
    return Ok(blob);
  }

  method Replace(blob: Bytes, header: Json) returns (r: Result<Bytes, PqRouteError>)
    ensures r == ReplaceRouteHeader(blob, header)
  {
    var parts := SplitOuter(blob);
    if parts.None? {
      return Err(Format);
    }
    var routeBytes := Canonical.Encode(header);
    var out := BuildFrame(routeBytes, parts.value.1);
    return Ok(out);
  }

  // -- reading a header ----------------------------------------------------------------------------

  ghost predicate Framable(header: Json) {
    |CanonicalBytes(header)| < U32_SIZE
  }

  /** A reader with this nesting limit finds the value behind its length. */
  ghost predicate Readable(v: Json, limit: nat) {
    Framable(v) && Fits(v, limit)
  }

  /** A framed header reads back exactly when its length survives the cast and it nests within the limit. */
  lemma HeaderOfFrame(header: Json, sealed: Bytes, limit: nat)
    ensures ReadRouteHeader(Frame(CanonicalBytes(header), sealed), limit)
         == if Readable(header, limit) then Ok(header) else Err(Format)
  {
    hide Print, ReadValue, Frame, SplitOuter, ParseDocument;
    SplitOfFrame(CanonicalBytes(header), sealed);
    CastDocument(header, AsciiOnly, limit);
  }

  /** A replaced header reads back as the new one, within the reader's limits, and the sealed bytes
      stay as they were, unless the new length does not survive its cast; any splittable blob will do. */
  lemma ReplacedHeaderReads(blob: Bytes, header: Json, limit: nat)
    requires SplitOuter(blob).Some?
    ensures var r := ReplaceRouteHeader(blob, header);
            && r.Ok?
            && (SplitOuter(r.value) == Some((CanonicalBytes(header), SplitOuter(blob).value.1)) <==> Framable(header))
            && ReadRouteHeader(r.value, limit)
                 == if Readable(header, limit) then Ok(header) else Err(Format)
  {
    hide Print, ReadValue, Frame, SplitOuter;
    SplitFrame(CanonicalBytes(header), SplitOuter(blob).value.1);
    HeaderOfFrame(header, SplitOuter(blob).value.1, limit);
  }

  // -- authenticity --------------------------------------------------------------------------------

  lemma InnerReads(metadata: Json, content: Bytes, limit: nat)
    ensures ReadInner(Inner(metadata, content), limit)
         == if Readable(metadata, limit) then Ok((metadata, content)) else Err(OpenError)
  {
    hide Print, ReadValue, Frame, SplitOuter, ParseDocument;
    SplitOfFrame(CanonicalBytes(metadata), content);
    CastDocument(metadata, AsciiOnly, limit);
    if Framable(metadata) {
      SplitFrame(CanonicalBytes(metadata), content);
    }
  }

  /** What one successful `seal_routed` put into the sealed part. */
  datatype Parts = Parts(sealed: Bytes, shared: Bytes, key: Bytes, aad: Bytes, body: Bytes)

  ghost function PartsOf(p: Primitives, metadata: Json, content: Bytes, pub: Bytes, header: Json, c: WrapCoins): Parts
    requires SealRouted(p, metadata, content, pub, header, c).Ok?
  {
    var aad := BuildAad(CanonicalBytes(header));
    var (ct, shared) := HybridEncap(p, pub, c.ephemeral, c.encaps).value;
    var key := DeriveWrapKey(p, shared, aad);
    var body := p.seal(key, c.nonce, Inner(metadata, content), aad).value;
    Parts(ct + c.nonce + body, shared, key, aad, body)
  }

  /** Opening any blob that carries the sealed part, under whatever header bytes. */
  lemma OpenSealedPart(p: Primitives, metadata: Json, content: Bytes, pub: Bytes, priv: Bytes, header: Json,
      c: WrapCoins, headerBytes: Bytes)
    requires KemCorrect(p) && KeyPair(p, pub, priv)
    requires SealRouted(p, metadata, content, pub, header, c).Ok?
    requires |PartsOf(p, metadata, content, pub, header, c).body| >= TAG_LEN
    ensures var x := PartsOf(p, metadata, content, pub, header, c);
            var aad := BuildAad(headerBytes);
            && SealRouted(p, metadata, content, pub, header, c) == Ok(Frame(CanonicalBytes(header), x.sealed))
            && |x.sealed| >= SEALED_MIN_LEN
            && OpenSealed(p, headerBytes, x.sealed, priv)
                 == match p.open(DeriveWrapKey(p, x.shared, aad), c.nonce, x.body, aad)
                    case None => Err(OpenError)
                    case Some(inner) => Ok(inner)
  {
    hide Print, Frame, BuildAad, DeriveWrapKey, Inner;
    var seed: Seed, g: Bytes :| HybridKeypair(p, seed, g) == HybridKeyPair(pub, priv);
    EncapDecap(p, seed, g, c.ephemeral, c.encaps);
    var x := PartsOf(p, metadata, content, pub, header, c);
    var ct := HybridEncap(p, pub, c.ephemeral, c.encaps).value.0;
    assert x.sealed[..CIPHERTEXT_LEN] == ct;
    assert x.sealed[CIPHERTEXT_LEN..CIPHERTEXT_LEN + NONCE_LEN] == c.nonce;
    assert x.sealed[CIPHERTEXT_LEN + NONCE_LEN..] == x.body;
  }

  /** A header that cannot be read back is a format error, before anything is decrypted. */
  lemma UnreadableHeader(p: Primitives, header: Json, sealed: Bytes, priv: Bytes, limit: nat)
    requires |sealed| >= SEALED_MIN_LEN && !Readable(header, limit)
    ensures OpenRouted(p, Frame(CanonicalBytes(header), sealed), priv, limit) == Err(Format)
  {
    hide Print, ReadValue, Frame, SplitOuter, ParseDocument, OpenSealed, ReadInner;
    SplitOfFrame(CanonicalBytes(header), sealed);
    CastDocument(header, AsciiOnly, limit);
  }

  /** The destination recovers header, metadata and content, as far as its reader goes. */
  lemma RouteRoundTrip(p: Primitives, metadata: Json, content: Bytes, pub: Bytes, priv: Bytes, header: Json,
      c: WrapCoins, limit: nat)
    requires Correct(p) && KeyPair(p, pub, priv)
    requires SealRouted(p, metadata, content, pub, header, c).Ok?
    ensures OpenRouted(p, SealRouted(p, metadata, content, pub, header, c).value, priv, limit) ==
      if !Readable(header, limit) then Err(Format)
      else if !Readable(metadata, limit) then Err(OpenError)
      else Ok((header, metadata, content))
  {
    hide Print, ReadValue, Frame, SplitOuter, BuildAad, DeriveWrapKey, Inner, OpenSealed, ReadInner, SealRouted;
    var x := PartsOf(p, metadata, content, pub, header, c);
    SealIsLong(p, metadata, content, pub, header, c);
    OpenSealedPart(p, metadata, content, pub, priv, header, c, CanonicalBytes(header));
    if Readable(header, limit) {
      SplitFrame(CanonicalBytes(header), x.sealed);
      DocumentRoundTrip(header, AsciiOnly, limit);
      InnerReads(metadata, content, limit);
    } else {
      UnreadableHeader(p, header, x.sealed, priv, limit);
    }
  }

  lemma SealIsLong(p: Primitives, metadata: Json, content: Bytes, pub: Bytes, header: Json, c: WrapCoins)
    requires SealRouted(p, metadata, content, pub, header, c).Ok?
    requires AeadCorrect(p) || exists l :: Ideal(p, l)
    ensures var x := PartsOf(p, metadata, content, pub, header, c);
            && |x.body| >= TAG_LEN
            && x.aad == BuildAad(CanonicalBytes(header))
            && p.seal(x.key, c.nonce, Inner(metadata, content), x.aad) == Some(x.body)
            && x.key == DeriveWrapKey(p, x.shared, x.aad)
            && (AeadCorrect(p) ==> p.open(x.key, c.nonce, x.body, x.aad) == Some(Inner(metadata, content)))
  {
    hide Print, Frame, BuildAad, DeriveWrapKey, Inner;
  }

  /** The ledger holds this sealing, so its ciphertext stems from no other one. */
  ghost predicate Recorded(p: Primitives, l: Ledger, metadata: Json, content: Bytes, pub: Bytes, header: Json,
      c: WrapCoins)
  {
    && SealRouted(p, metadata, content, pub, header, c).Ok?
    && var x := PartsOf(p, metadata, content, pub, header, c);
    && (c.nonce, x.body) in l
    && l[(c.nonce, x.body)] == Sealing(x.key, x.aad, Inner(metadata, content))
  }

  /** Any envelope can be the recorded one: the assumptions below are met for all inputs. */
  lemma RecordedInstance(metadata: Json, content: Bytes, header: Json, c: WrapCoins, seed: Seed, g: Bytes)
      returns (p: Primitives, l: Ledger, pub: Bytes, priv: Bytes)
    ensures Ideal(p, l) && KemCorrect(p) && KeyPair(p, pub, priv)
    ensures Recorded(p, l, metadata, content, pub, header, c)
  {
    hide Print, Frame, BuildAad, Inner;
    ToyIsCorrect();
    var kp := HybridKeypair(TOY, seed, g);
    pub, priv := kp.publicKey, kp.privateKey;
    EncapDecap(TOY, seed, g, c.ephemeral, c.encaps);
    var x := PartsOf(TOY, metadata, content, pub, header, c);
    l := map[(c.nonce, x.body) := Sealing(x.key, x.aad, Inner(metadata, content))];
    p := WithLedger(TOY, l);
    IdealInstance(l);
    assert HybridKeypair(p, seed, g) == kp;
    assert PartsOf(p, metadata, content, pub, header, c) == x;
  }

  /** With an ideal AEAD the sealed part, in any blob that carries it, opens under the sealed header's
      own bytes and no others, not even another spelling of the same JSON value. */
  lemma HeaderBytesAuthentic(p: Primitives, l: Ledger, metadata: Json, content: Bytes, pub: Bytes, priv: Bytes,
      header: Json, c: WrapCoins, blob: Bytes, headerBytes: Bytes, limit: nat)
    requires Ideal(p, l) && KemCorrect(p) && KeyPair(p, pub, priv)
    requires Recorded(p, l, metadata, content, pub, header, c)
    requires SplitOuter(blob) == Some((headerBytes, PartsOf(p, metadata, content, pub, header, c).sealed))
    ensures var r := OpenRouted(p, blob, priv, limit);
            match ParseDocument(headerBytes, limit)
            case None => r.Err?
            case Some(route) =>
              if headerBytes != CanonicalBytes(header) || !Readable(metadata, limit) then r == Err(OpenError)
              else r == Ok((route, metadata, content))
  {
    hide Print, ReadValue, Frame, SplitOuter, BuildAad, DeriveWrapKey, Inner, OpenSealed, ReadInner;
    hide SealRouted, PartsOf;
    SealIsLong(p, metadata, content, pub, header, c);
    OpenSealedPart(p, metadata, content, pub, priv, header, c, headerBytes);
    AadBytesInjective(headerBytes, CanonicalBytes(header));
    InnerReads(metadata, content, limit);
  }

  lemma AadBytesInjective(a: Bytes, b: Bytes)
    ensures BuildAad(a) == BuildAad(b) ==> a == b
  {
    var n := |ROUTE_SUITE| + 1;
    assert BuildAad(a)[n..] == a && BuildAad(b)[n..] == b;
  }

  /** An envelope that can be split back carries its own sealed part. */
  lemma EnvelopeCarriesSealed(p: Primitives, metadata: Json, content: Bytes, pub: Bytes, header: Json, c: WrapCoins)
    requires SealRouted(p, metadata, content, pub, header, c).Ok? && Framable(header)
    ensures var blob := SealRouted(p, metadata, content, pub, header, c).value;
            SplitOuter(blob) == Some((CanonicalBytes(header), PartsOf(p, metadata, content, pub, header, c).sealed))
  {
    hide Print, Frame, SplitOuter, BuildAad, DeriveWrapKey, Inner;
    SplitFrame(CanonicalBytes(header), PartsOf(p, metadata, content, pub, header, c).sealed);
  }

  /** After a header replacement, in the envelope or in any blob that carries its sealed part, the
      destination opens it exactly when the new header is the sealed one as a JSON value, and then
      gets the sealed metadata and content. */
  lemma HeaderAuthentic(p: Primitives, l: Ledger, metadata: Json, content: Bytes, pub: Bytes, priv: Bytes,
      header: Json, c: WrapCoins, blob: Bytes, replacement: Json, limit: nat)
    requires Ideal(p, l) && KemCorrect(p) && KeyPair(p, pub, priv)
    requires Recorded(p, l, metadata, content, pub, header, c)
    requires SplitOuter(blob).Some?
    requires SplitOuter(blob).value.1 == PartsOf(p, metadata, content, pub, header, c).sealed
    ensures var replaced := ReplaceRouteHeader(blob, replacement);
            && replaced.Ok?
            && OpenRouted(p, replaced.value, priv, limit) ==
                 if !Readable(replacement, limit) then Err(Format)
                 else if replacement != header || !Readable(metadata, limit) then Err(OpenError)
                 else Ok((header, metadata, content))
  {
    hide Print, ReadValue, Frame, SplitOuter, OpenRouted, SealRouted, PartsOf, Inner;
    var x := PartsOf(p, metadata, content, pub, header, c);
    var bytes := CanonicalBytes(replacement);
    SealIsLong(p, metadata, content, pub, header, c);
    OpenSealedPart(p, metadata, content, pub, priv, header, c, bytes);
    if Readable(replacement, limit) {
      SplitFrame(bytes, x.sealed);
      HeaderBytesAuthentic(p, l, metadata, content, pub, priv, header, c, Frame(bytes, x.sealed), bytes, limit);
      DocumentRoundTrip(replacement, AsciiOnly, limit);
      if bytes == CanonicalBytes(header) {
        PrintInjective(replacement, header, AsciiOnly);
      }
    } else {
      UnreadableHeader(p, replacement, x.sealed, priv, limit);
    }
  }
}
