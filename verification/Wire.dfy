/** The wire formats of the crate's interop contract, byte for byte, with every label and length in
    place: what another implementation has to produce and to accept. */
module Wire {
  import opened Basics
  import opened Crypto
  import opened Kem
  import opened Ratchet
  import opened Json
  import opened Base64
  import opened DmState
  import DmToken
  import DmSlots
  import PqDm
  import PqRoute
  import AnonQueue

  // -- epoch secrets ---------------------------------------------------------------------------------

  /** `ct(1120) ‖ nonce(12) ‖ AES-GCM(secret)(48)`, or the error of the first check that fails. */
  lemma WrappedSecret(p: Primitives, secret: Bytes, peer: Bytes, c: WrapCoins)
    ensures WrapDmEpochSecret(p, secret, peer, c) ==
      if |secret| != 32 then Err(BadSecretLen(|secret|))
      else if |peer| != 1216 then Err(BadPublicKeyLen(|peer|))
      else
        match HybridEncap(p, peer, c.ephemeral, c.encaps)
        case Err(e) => Err(KemFailed(e))
        case Ok((ct, shared)) =>
          match p.seal(p.hkdf(shared, [], Ascii("skchat/dm-ratchet/epoch-wrap/v1")), c.nonce, secret, [])
          case None => Err(UnwrapFailed)
          case Some(sealed) => Ok(ct + c.nonce + sealed)
  {
  }

  /** Exactly the payloads of 1180 bytes are looked into; then the KEM decides, then the AEAD. */
  lemma UnwrapOutcome(p: Primitives, payload: Bytes, priv: Bytes)
    ensures var r := UnwrapDmEpochSecret(p, payload, priv);
            && (forall n :: r == Err(BadPayloadLen(n)) <==> n == |payload| && n != 1180)
            && (|payload| == 1180 ==>
                 var kem := HybridDecap(p, payload[..1120], priv);
                 && (forall e :: r == Err(KemFailed(e)) <==> kem == Err(e))
                 && (r.Ok? ==> kem.Ok? && p.open(p.hkdf(kem.value, [], Ascii("skchat/dm-ratchet/epoch-wrap/v1")),
                                                  payload[1120..1132], payload[1132..], []) == Some(r.value)))
  {
    hide HybridDecap;
  }

  // -- ratchet frames --------------------------------------------------------------------------------

  /** The associated data of slot `(epoch, index)`. */
  function SlotAad(epoch: U64, index: U64): Bytes {
    Ascii("skchat/dm-frame/v1|") + U64Be(epoch) + U64Be(index)
  }

  /** The key of slot `(epoch, index)`. */
  function SlotKey(p: Primitives, secret: Secret, epoch: U64, index: U64): Bytes {
    p.hkdf(secret, Ascii("skchat/dm-epoch/") + U64Be(epoch), Ascii("skchat/dm-ratchet/msg/v1/") + U64Be(index))
  }

  lemma SlotAadIs(epoch: U64, index: U64)
    ensures FrameAad(epoch, index) == SlotAad(epoch, index)
  {
    assert Ascii("skchat/dm-frame/v1") + [0x7C] == Ascii("skchat/dm-frame/v1|");
  }

  lemma SlotKeyIs(p: Primitives, secret: Secret, epoch: U64, index: U64)
    ensures DeriveDmMessageKey(p, secret, epoch, index) == SlotKey(p, secret, epoch, index)
  {
  }

  /** A sealed frame: the key of its slot from the epoch's stored secret, the slot in the data. */
  lemma SealedFrame(p: Primitives, s: SessionState, m: Bytes, pub: Bytes, c: Coins)
    requires Coherent(s) && SealStep(p, s, m, pub, c).1.Ok?
    ensures var (t, f) := (SealStep(p, s, m, pub, c).0, SealStep(p, s, m, pub, c).1.value);
            && f.nonce == c.nonce && f.epoch in t.secrets
            && p.seal(SlotKey(p, t.secrets[f.epoch], f.epoch, f.index), c.nonce, m, SlotAad(f.epoch, f.index))
                 == Some(f.body)
            && (f.kam.Some? <==> f.index < 3) && (f.kam.Some? ==> f.kam == t.kam)
  {
    hide WrapDmEpochSecret, FrameAad, SlotAad, DeriveDmMessageKey, SlotKey;
    var (t, f) := (SealStep(p, s, m, pub, c).0, SealStep(p, s, m, pub, c).1.value);
    SlotAadIs(f.epoch, f.index);
    SlotKeyIs(p, t.secrets[f.epoch], f.epoch, f.index);
  }

  /** How `seal` fails: at the wrap, with the session unchanged, or at the encryption, with the slot
      used up. */
  lemma SealErrors(p: Primitives, s: SessionState, m: Bytes, pub: Bytes, c: Coins)
    requires Coherent(s)
    ensures var (t, r) := SealStep(p, s, m, pub, c);
            && (r.Err? ==> r.error == OpenFailed || r.error.RatchetFailed?)
            && (forall e :: r == Err(RatchetFailed(e)) <==>
                 BeginAt(s, c.checkedAt).Some? && WrapDmEpochSecret(p, c.secret, pub, c.wrap) == Err(e))
            && (r.Err? && r.error.RatchetFailed? ==> t == s)
            && (r == Err(OpenFailed) ==> DmSlots.Allocated(p, s, Seal(m, pub, c)).Some?)
  {
    hide WrapDmEpochSecret, DeriveDmMessageKey, FrameAad;
  }

  /** A frame moved to another slot is refused by whoever holds a secret for it, even where the two
      slots had one key: the slot that was sealed is in the associated data. */
  lemma MovedFrameRefused(p: Primitives, l: Ledger, s: SessionState, f: SealedDmFrame, g: SealedDmFrame, priv: Bytes)
    requires Committing(p, l) && |f.nonce| == 12 && (f.nonce, f.body) in l
    requires l[(f.nonce, f.body)].aad == SlotAad(f.epoch, f.index)
    requires g.nonce == f.nonce && g.body == f.body && (g.epoch != f.epoch || g.index != f.index)
    requires g.epoch in s.secrets
    ensures OpenStep(p, s, g, priv) == (s, Err(OpenFailed))
  {
    hide DeriveDmMessageKey, FrameAad, UnwrapDmEpochSecret;
    SlotAadIs(f.epoch, f.index);
    SlotAadIs(g.epoch, g.index);
    SlotAadInjective(f.epoch, f.index, g.epoch, g.index);
  }

  lemma SlotAadInjective(e: U64, i: U64, f: U64, j: U64)
    ensures SlotAad(e, i) == SlotAad(f, j) ==> e == f && i == j
  {
    if SlotAad(e, i) == SlotAad(f, j) {
      SlotOfAad(e, i, f, j);
    }
  }

  lemma SlotOfAad(e: U64, i: U64, f: U64, j: U64)
    requires SlotAad(e, i) == SlotAad(f, j)
    ensures e == f && i == j
  {
    var n := |Ascii("skchat/dm-frame/v1|")|;
    assert SlotAad(e, i)[n..n + 8] == U64Be(e) && SlotAad(e, i)[n + 8..] == U64Be(i);
    assert SlotAad(f, j)[n..n + 8] == U64Be(f) && SlotAad(f, j)[n + 8..] == U64Be(j);
    U64Injective(e, f);
    U64Injective(i, j);
  }

  /** The token: the scheme, then base64 of the fields in order, each byte string behind its length. */
  lemma TokenLayout(f: DmState.SealedDmFrame)
    ensures var token := DmToken.ToToken(f);
            && |token| >= 6 && token[..6] == "pqdr1:"
            && DecodePadded(token[6..]) == Some(
                 U64Be(f.epoch) + U64Be(f.index)
                 + U32Be(|f.nonce| % 0x1_0000_0000) + f.nonce
                 + U32Be(|f.body| % 0x1_0000_0000) + f.body
                 + match f.kam
                   case None => [0]
                   case Some(kam) => [1] + U32Be(|kam| % 0x1_0000_0000) + kam)
  {
    hide EncodePadded, DecodePadded;
    var token := DmToken.ToToken(f);
    var b := DmToken.FrameBytes(f);
    assert token[..6] == "pqdr1:" && token[6..] == EncodePadded(b);
    PaddedRoundTrip(b);
    FlatFrame(f);
  }

  /** Whatever is no token is refused with one error. */
  lemma TokenErrors(token: string)
    ensures var r := DmToken.FromToken(token);
            && (r.Err? ==> r == Err(BadToken))
            && (r.Ok? <==> exists f :: DmToken.FieldsFit(f) && token == DmToken.ToToken(f))
  {
    hide DmToken.ToToken, DecodePadded, DmToken.ParseFrame, DmToken.FieldsFit;
    if DmToken.FromToken(token).Ok? {
      DmToken.TokenOnto(token);
    }
    forall f | DmToken.FieldsFit(f) && token == DmToken.ToToken(f) ensures DmToken.FromToken(token).Ok? {
      DmToken.TokenRoundTrip(f);
    }
  }

  lemma FlatFrame(f: DmState.SealedDmFrame)
    ensures DmToken.FrameBytes(f) ==
      U64Be(f.epoch) + U64Be(f.index)
      + U32Be(|f.nonce| % 0x1_0000_0000) + f.nonce
      + U32Be(|f.body| % 0x1_0000_0000) + f.body
      + match f.kam
        case None => [0]
        case Some(kam) => [1] + U32Be(|kam| % 0x1_0000_0000) + kam
  {
    var (a, b) := (U64Be(f.epoch), U64Be(f.index));
    var (c, d) := (U32Be(|f.nonce| % 0x1_0000_0000), U32Be(|f.body| % 0x1_0000_0000));
    var k := DmToken.KamBytes(f.kam);
    assert a + (b + ((c + f.nonce) + ((d + f.body) + k))) == a + b + c + f.nonce + d + f.body + k;
    if f.kam.Some? {
      var n := U32Be(|f.kam.value| % 0x1_0000_0000);
      assert k == [1] + n + f.kam.value;
    }
  }

  // -- one-shot seals --------------------------------------------------------------------------------

  /** The one-shot seal locks to the hybrid suite: `ct(1120) ‖ nonce(12) ‖ body`. */
  lemma SealedBody(p: Primitives, plaintext: Bytes, pub: Bytes, sender: string, recipient: string, c: WrapCoins)
    ensures PqDm.Seal(p, plaintext, pub, sender, recipient, c) ==
      if |pub| != 1216 then Err(PqDm.Format)
      else
        var aad := PqDm.DowngradeLockAad("x25519-mlkem768", sender, recipient, None);
        match HybridEncap(p, pub, c.ephemeral, c.encaps)
        case Err(e) => Err(PqDm.KemError(e))
        case Ok((ct, shared)) =>
          match p.seal(p.hkdf(shared, [], Ascii("skcomms/pqdm/wrap/v1|") + aad), c.nonce, plaintext, aad)
          case None => Err(PqDm.Format)
          case Some(body) => Ok(ct + c.nonce + body)
  {
    hide PqDm.DowngradeLockAad;
    assert Ascii("skcomms/pqdm/wrap/v1") + [0x7C] == Ascii("skcomms/pqdm/wrap/v1|");
  }

  /** Which error opening gives: the length first, then the KEM, then the AEAD as a downgrade. */
  lemma OpenSealedErrors(p: Primitives, sealed: Bytes, priv: Bytes, sender: string, recipient: string, suite: string)
    ensures var r := PqDm.OpenSealed(p, sealed, priv, sender, recipient, suite);
            && (r == Err(PqDm.Format) <==> |sealed| < 1148)
            && (forall e :: r == Err(PqDm.KemError(e)) <==>
                 |sealed| >= 1148 && HybridDecap(p, sealed[..1120], priv) == Err(e))
            && (|sealed| >= 1148 && HybridDecap(p, sealed[..1120], priv).Ok? && r.Err? ==>
                 r.error == PqDm.DowngradeDetected)
  {
    hide PqDm.DowngradeLockAad, HybridDecap;
  }

  // -- routing envelopes -----------------------------------------------------------------------------

  /** `len(header) ‖ header ‖ ct(1120) ‖ nonce(12) ‖ AES-GCM(len(metadata) ‖ metadata ‖ content)`. */
  lemma Envelope(p: Primitives, metadata: Json, content: Bytes, pub: Bytes, header: Json, c: WrapCoins)
    ensures PqRoute.SealRouted(p, metadata, content, pub, header, c) ==
      if |pub| != 1216 then Err(PqRoute.Format)
      else
        var (h, m) := (Print(header, AsciiOnly), Print(metadata, AsciiOnly));
        var aad := Ascii("pqroute1|") + h;
        var inner := U32Be(|m| % 0x1_0000_0000) + m + content;
        match HybridEncap(p, pub, c.ephemeral, c.encaps)
        case Err(e) => Err(PqRoute.KemError(e))
        case Ok((ct, shared)) =>
          match p.seal(p.hkdf(shared, [], Ascii("skcomms/pqroute/wrap/v1|") + aad), c.nonce, inner, aad)
          case None => Err(PqRoute.Format)
          case Some(body) => Ok(U32Be(|h| % 0x1_0000_0000) + h + ct + c.nonce + body)
  {
    hide Print, HybridEncap, PqRoute.Frame, PqRoute.Inner, PqRoute.BuildAad, PqRoute.DeriveWrapKey;
    var (h, m) := (Print(header, AsciiOnly), Print(metadata, AsciiOnly));
    RouteAad(h);
    InnerFlat(metadata, content);
    if HybridEncap(p, pub, c.ephemeral, c.encaps).Ok? {
      var (ct, shared) := HybridEncap(p, pub, c.ephemeral, c.encaps).value;
      RouteKey(p, shared, PqRoute.BuildAad(h));
      var sealed := p.seal(PqRoute.DeriveWrapKey(p, shared, PqRoute.BuildAad(h)), c.nonce,
                           PqRoute.Inner(metadata, content), PqRoute.BuildAad(h));
      if sealed.Some? {
        FrameFlat(h, ct, c.nonce, sealed.value);
      }
    }
  }

  lemma RouteAad(h: Bytes)
    ensures PqRoute.BuildAad(h) == Ascii("pqroute1|") + h
  {
    assert Ascii("pqroute1") + [0x7C] == Ascii("pqroute1|");
  }

  lemma RouteKey(p: Primitives, shared: Bytes, aad: Bytes)
    ensures PqRoute.DeriveWrapKey(p, shared, aad) == p.hkdf(shared, [], Ascii("skcomms/pqroute/wrap/v1|") + aad)
  {
    assert Ascii("skcomms/pqroute/wrap/v1") + [0x7C] == Ascii("skcomms/pqroute/wrap/v1|");
  }

  lemma InnerFlat(metadata: Json, content: Bytes)
    ensures var m := Print(metadata, AsciiOnly);
            PqRoute.Inner(metadata, content) == U32Be(|m| % 0x1_0000_0000) + m + content
  {
    hide Print;
  }

  lemma FrameFlat(h: Bytes, a: Bytes, b: Bytes, c: Bytes)
    ensures PqRoute.Frame(h, a + b + c) == U32Be(|h| % 0x1_0000_0000) + h + a + b + c
  {
  }

  /** Which error opening gives: a malformed blob or header is a format error, all else fails to open. */
  lemma OpenRoutedErrors(p: Primitives, blob: Bytes, priv: Bytes, limit: nat)
    ensures var (r, parts) := (PqRoute.OpenRouted(p, blob, priv, limit), PqRoute.SplitOuter(blob));
            && (r.Err? ==> r.error == PqRoute.Format || r.error == PqRoute.OpenError)
            && (r == Err(PqRoute.Format) <==>
                 parts.None? || |parts.value.1| < 1148 || ParseDocument(parts.value.0, limit).None?)
  {
    hide PqRoute.SplitOuter, ParseDocument, HybridDecap;
  }

  /** Reading and replacing a header know one error; reading needs the blob and its JSON, replacing the blob. */
  lemma HeaderErrors(blob: Bytes, header: Json, limit: nat)
    ensures var (read, parts) := (PqRoute.ReadRouteHeader(blob, limit), PqRoute.SplitOuter(blob));
            && (read.Err? ==> read == Err(PqRoute.Format))
            && (read.Ok? <==> parts.Some? && ParseDocument(parts.value.0, limit).Some?)
            && (read.Ok? ==> ParseDocument(parts.value.0, limit) == Some(read.value))
    ensures var (replaced, parts) := (PqRoute.ReplaceRouteHeader(blob, header), PqRoute.SplitOuter(blob));
            && (replaced.Err? ==> replaced == Err(PqRoute.Format))
            && (replaced.Ok? <==> parts.Some?)
  {
    hide PqRoute.SplitOuter, ParseDocument, Print;
  }

  /** A blob splits exactly when its first four bytes count no more than what follows them. */
  lemma SplitDomain(blob: Bytes)
    ensures PqRoute.SplitOuter(blob).Some? <==> |blob| >= 4 && ReadU32(blob[..4]) <= |blob| - 4
    ensures PqRoute.SplitOuter(blob).Some? ==>
      var n := ReadU32(blob[..4]); PqRoute.SplitOuter(blob).value == (blob[4..4 + n], blob[4 + n..])
  {
  }

  // -- queue addresses -------------------------------------------------------------------------------

  /** An address is the scheme, the relay, a slash, and 22 characters. */
  lemma AddressText(relay: string, id: Bytes)
    requires relay != "" && '/' !in relay && |id| == 16
    ensures |EncodeUnpadded(UrlSafe, id)| == 22
    ensures AnonQueue.EncodeAqid(relay, id) == Ok("aqid:" + relay + "/" + EncodeUnpadded(UrlSafe, id))
  {
    LastGroup(id);
  }

  /** Why encoding fails, in the order of the checks. */
  lemma EncodeErrors(relay: string, id: Bytes)
    ensures var r := AnonQueue.EncodeAqid(relay, id);
            && (r == Err(AnonQueue.EmptyRelay) <==> relay == "")
            && (r == Err(AnonQueue.SlashInRelay) <==> '/' in relay)
            && (forall n :: r == Err(AnonQueue.BadIdLen(n)) <==> relay != "" && '/' !in relay && n == |id| && n != 16)
  {
  }

  /** Why decoding fails. A text of the right shape has an id that is no base64, or one of the wrong
      length; any other text is no address at all. */
  lemma DecodeErrors(s: string)
    ensures (exists relay: string, text: string :: Shape(s, relay, text))
      || AnonQueue.DecodeAqid(s) == Err(AnonQueue.BadAddress)
    ensures forall relay: string, text: string :: Shape(s, relay, text) ==>
      var r := AnonQueue.DecodeAqid(s);
      && r != Err(AnonQueue.BadAddress)
      && (r == Err(AnonQueue.BadBase64) <==> forall b :: EncodeUnpadded(UrlSafe, b) != text)
      && (forall b :: EncodeUnpadded(UrlSafe, b) == text && |b| != 16 ==> r == Err(AnonQueue.BadIdLen(|b|)))
  {
    hide EncodeUnpadded, DecodeUnpadded;
    var parts := if "aqid:" <= s then AnonQueue.SplitAtSlash(s[5..]) else None;
    if parts.Some? && parts.value.0 != "" && parts.value.1 != "" {
      assert s == "aqid:" + s[5..];
      assert Shape(s, parts.value.0, parts.value.1);
    }
    forall relay: string, text: string | Shape(s, relay, text)
      ensures var r := AnonQueue.DecodeAqid(s);
        && r != Err(AnonQueue.BadAddress)
        && (r == Err(AnonQueue.BadBase64) <==> forall b :: EncodeUnpadded(UrlSafe, b) != text)
        && (forall b :: EncodeUnpadded(UrlSafe, b) == text && |b| != 16 ==> r == Err(AnonQueue.BadIdLen(|b|)))
    {
      ShapeDecodes(s, relay, text);
    }
  }

  /** The scheme, a relay without a slash, the slash, and some text. */
  predicate Shape(s: string, relay: string, text: string) {
    relay != "" && '/' !in relay && text != "" && s == "aqid:" + relay + "/" + text
  }

  lemma ShapeDecodes(s: string, relay: string, text: string)
    requires Shape(s, relay, text)
    ensures var r := AnonQueue.DecodeAqid(s);
      && r != Err(AnonQueue.BadAddress)
      && (r == Err(AnonQueue.BadBase64) <==> forall b :: EncodeUnpadded(UrlSafe, b) != text)
      && (forall b :: EncodeUnpadded(UrlSafe, b) == text && |b| != 16 ==> r == Err(AnonQueue.BadIdLen(|b|)))
  {
    hide EncodeUnpadded, DecodeUnpadded, AnonQueue.SplitAtSlash;
    assert s[5..] == relay + "/" + text;
    AnonQueue.SplitFront(relay, text);
    if DecodeUnpadded(UrlSafe, text).Some? {
      UnpaddedOnto(UrlSafe, text);
    }
    forall b | EncodeUnpadded(UrlSafe, b) == text ensures DecodeUnpadded(UrlSafe, text) == Some(b) {
      UnpaddedRoundTrip(UrlSafe, b);
    }
  }
}
