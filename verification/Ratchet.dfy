/** The 1:1 DM key schedule, the per-epoch wrap of its secret, and the outbound counter. */
module Ratchet {
  import opened Basics
  import opened Crypto
  import opened Kem

  const EPOCH_SECRET_LEN := 32
  const DEFAULT_REKEY_MSG_BOUND := 50
  const DEFAULT_REKEY_AGE_SECONDS := 7 * 24 * 3600
  const EPOCH_SALT_PREFIX: Bytes := Ascii("skchat/dm-epoch/")
  const MSG_INFO_PREFIX: Bytes := Ascii("skchat/dm-ratchet/msg/v1/")
  const INFO_DM_WRAP: Bytes := Ascii("skchat/dm-ratchet/epoch-wrap/v1")
  const WRAPPED_PAYLOAD_LEN := CIPHERTEXT_LEN + NONCE_LEN + EPOCH_SECRET_LEN + TAG_LEN

  type Secret = b: Bytes | |b| == EPOCH_SECRET_LEN witness Zeros(EPOCH_SECRET_LEN)

  /** Whole POSIX seconds, in the range a JSON integer has. */
  type Seconds = n: int | -0x8000_0000_0000_0000 <= n < U64_SIZE

  datatype RatchetError =
    | BadSecretLen(got: nat)
    | BadPublicKeyLen(got: nat)
    | BadPayloadLen(got: nat)
    | KemFailed(kem: KemError)
    | UnwrapFailed

  function MessageSalt(epoch: U64): Bytes {
    EPOCH_SALT_PREFIX + U64Be(epoch)
  }

  function MessageInfo(index: U64): Bytes {
    MSG_INFO_PREFIX + U64Be(index)
  }

  function DeriveDmMessageKey(p: Primitives, secret: Secret, epoch: U64, index: U64): Bytes {
    p.hkdf(secret, MessageSalt(epoch), MessageInfo(index))
  }

  predicate ShouldRekey(index: U64, startedAt: Seconds, now: Seconds, msgBound: U64, ageBound: U64) {
    index >= msgBound || now - startedAt >= ageBound
  }

  function DmWrapKey(p: Primitives, shared: Bytes): Bytes {
    p.hkdf(shared, [], INFO_DM_WRAP)
  }

  /** The random choices of one wrap. */
  datatype WrapCoins = WrapCoins(ephemeral: Seed, encaps: Bytes, nonce: Nonce)

  function WrapDmEpochSecret(p: Primitives, secret: Bytes, peer: Bytes, c: WrapCoins): Result<Bytes, RatchetError> {
    if |secret| != EPOCH_SECRET_LEN then Err(BadSecretLen(|secret|))
    else if |peer| != PUBLIC_KEY_LEN then Err(BadPublicKeyLen(|peer|))
    else
      match HybridEncap(p, peer, c.ephemeral, c.encaps)
      case Err(e) => Err(KemFailed(e))
      case Ok((ct, shared)) =>
        match p.seal(DmWrapKey(p, shared), c.nonce, secret, [])
        case None => Err(UnwrapFailed)
        case Some(wrapped) => Ok(ct + c.nonce + wrapped)
  }

  function UnwrapDmEpochSecret(p: Primitives, payload: Bytes, priv: Bytes): Result<Secret, RatchetError> {
    if |payload| != WRAPPED_PAYLOAD_LEN then Err(BadPayloadLen(|payload|))
    else
      match HybridDecap(p, payload[..CIPHERTEXT_LEN], priv)
      case Err(e) => Err(KemFailed(e))
      case Ok(shared) =>
        var nonce := payload[CIPHERTEXT_LEN..CIPHERTEXT_LEN + NONCE_LEN];
        match p.open(DmWrapKey(p, shared), nonce, payload[CIPHERTEXT_LEN + NONCE_LEN..], [])
        case None => Err(UnwrapFailed)
        case Some(plain) => if |plain| == EPOCH_SECRET_LEN then Ok(plain) else Err(UnwrapFailed)
  }

  /** `pub` and `priv` come from one key generation. */
  ghost predicate KeyPair(p: Primitives, pub: Bytes, priv: Bytes) {
    exists seed: Seed, g: Bytes :: HybridKeypair(p, seed, g) == HybridKeyPair(pub, priv)
  }

  /** The peer recovers exactly the wrapped epoch secret. */
  lemma WrapUnwrap(p: Primitives, secret: Secret, pub: Bytes, priv: Bytes, c: WrapCoins)
    requires Correct(p) && KeyPair(p, pub, priv)
    ensures var w := WrapDmEpochSecret(p, secret, pub, c);
            && (w.Err? ==> w.error == KemFailed(MlKem) || w.error == UnwrapFailed)
            && (w.Ok? ==> |w.value| == WRAPPED_PAYLOAD_LEN && UnwrapDmEpochSecret(p, w.value, priv) == Ok(secret))
  {
    var seed: Seed, g: Bytes :| HybridKeypair(p, seed, g) == HybridKeyPair(pub, priv);
    EncapDecap(p, seed, g, c.ephemeral, c.encaps);
    var e := HybridEncap(p, pub, c.ephemeral, c.encaps);
    if e.Ok? {
      var (ct, shared) := e.value;
      var sealed := p.seal(DmWrapKey(p, shared), c.nonce, secret, []);
      if sealed.Some? {
        var payload := ct + c.nonce + sealed.value;
        assert payload[..CIPHERTEXT_LEN] == ct;
        assert payload[CIPHERTEXT_LEN..CIPHERTEXT_LEN + NONCE_LEN] == c.nonce;
        assert payload[CIPHERTEXT_LEN + NONCE_LEN..] == sealed.value;
      }
    }
  }

  /** The value of a ratchet: one epoch and its outbound counter. */
  datatype RatchetState = RatchetState(
    epoch: U64, secret: Secret, index: U64, msgBound: U64, ageBound: U64, startedAt: Seconds)
  {
    predicate Due(now: Seconds) {
      ShouldRekey(index, startedAt, now, msgBound, ageBound)
    }

    function Advanced(): RatchetState {
      this.(index := (index + 1) % U64_SIZE)
    }
  }

  class DmRatchet {
    var epoch: U64
    var epochSecret: Secret
    var messageIndex: U64
    var rekeyMsgBound: U64
    var rekeyAgeSeconds: U64
    var epochStartedAt: Seconds

    function State(): RatchetState
      reads this
    {
      RatchetState(epoch, epochSecret, messageIndex, rekeyMsgBound, rekeyAgeSeconds, epochStartedAt)
    }

    constructor (r: RatchetState)
      ensures State() == r
    {
      epoch, epochSecret, messageIndex := r.epoch, r.secret, r.index;
      rekeyMsgBound, rekeyAgeSeconds, epochStartedAt := r.msgBound, r.ageBound, r.startedAt;
    }

    constructor WithBounds(epoch: U64, secret: Secret, msgBound: U64, ageBound: U64, now: Seconds)
      ensures State() == RatchetState(epoch, secret, 0, msgBound, ageBound, now)
    {
      this.epoch, epochSecret, messageIndex := epoch, secret, 0;
      rekeyMsgBound, rekeyAgeSeconds, epochStartedAt := msgBound, ageBound, now;
    }

    /** The index and key of the next message; the counter wraps as a `u64` does. */
    method NextOutboundKey(p: Primitives) returns (idx: U64, key: Bytes)
      modifies this
      ensures idx == old(messageIndex) && State() == old(State()).Advanced()
      ensures key == DeriveDmMessageKey(p, epochSecret, epoch, idx)
    {
      idx := messageIndex;
      key := DeriveDmMessageKey(p, epochSecret, epoch, idx);
      messageIndex := (messageIndex + 1) % U64_SIZE;
    }
  }
}
