/** The frames on which `open` panics: `from_token` does not look at the length of a nonce. */
module DmNonce {
  import opened Basics
  import opened Crypto
  import opened Ratchet
  import opened DmState
  import opened DmToken

  /** The frame's epoch has a secret by the time its body is opened. */
  predicate Decidable(p: Primitives, s: SessionState, f: SealedDmFrame, priv: Bytes) {
    f.epoch in s.secrets || (f.kam.Some? && UnwrapDmEpochSecret(p, f.kam.value, priv).Ok?)
  }

  /** `open` panics exactly on a nonce of the wrong length in a frame whose epoch secret is known or
      comes with it. By then the secret is stored, and nothing else has changed. */
  lemma PanicsExactly(p: Primitives, s: SessionState, f: SealedDmFrame, priv: Bytes)
    ensures var (t, r) := OpenStep(p, s, f, priv);
            && (r == Err(NoncePanic) <==> |f.nonce| != NONCE_LEN && Decidable(p, s, f, priv))
            && (r == Err(NoncePanic) ==>
                 t.secrets == if f.epoch in s.secrets then s.secrets
                              else s.secrets[f.epoch := UnwrapDmEpochSecret(p, f.kam.value, priv).value])
            && t == s.(secrets := t.secrets)
  {
    hide UnwrapDmEpochSecret, DeriveDmMessageKey, FrameAad;
  }

  /** For every accepted token: `open` does not panic on its frame exactly when the nonce has
      12 bytes or no secret can be had for the epoch. */
  lemma AcceptedTokenPanics(p: Primitives, s: SessionState, token: string, priv: Bytes)
    requires FromToken(token).Ok?
    ensures var f := FromToken(token).value;
            && ToToken(f) == token
            && (OpenStep(p, s, f, priv).1 != Err(NoncePanic) <==> |f.nonce| == NONCE_LEN || !Decidable(p, s, f, priv))
  {
    hide FromToken, ToToken;
    TokenOnto(token);
    PanicsExactly(p, s, FromToken(token).value, priv);
  }

  /** A frame without a nonce, for an epoch of the receiver's own or with the given KAM. */
  function Bare(epoch: U64, kam: Option<Bytes>): SealedDmFrame {
    SealedDmFrame(epoch, 0, [], [], kam)
  }

  /** The condition is met: in every session that knows a secret such a token is accepted and panics. */
  lemma BareTokenPanics(p: Primitives, s: SessionState, epoch: U64, priv: Bytes)
    requires epoch in s.secrets
    ensures FromToken(ToToken(Bare(epoch, None))) == Ok(Bare(epoch, None))
    ensures OpenStep(p, s, Bare(epoch, None), priv) == (s, Err(NoncePanic))
  {
    hide FromToken, ToToken;
    TokenRoundTrip(Bare(epoch, None));
    PanicsExactly(p, s, Bare(epoch, None), priv);
  }

  /** In a new session it is met with a KAM, whose secret is in the store although the call panicked. */
  lemma BareTokenStoresSecret(p: Primitives, peer: string, msgBound: U64, ageBound: U64, epoch: U64,
      secret: Secret, pub: Bytes, priv: Bytes, c: WrapCoins)
    requires Correct(p) && KeyPair(p, pub, priv) && WrapDmEpochSecret(p, secret, pub, c).Ok?
    ensures var f := Bare(epoch, Some(WrapDmEpochSecret(p, secret, pub, c).value));
            var s := NewSession(peer, msgBound, ageBound);
            && FromToken(ToToken(f)) == Ok(f)
            && OpenStep(p, s, f, priv) == (s.(secrets := map[epoch := secret]), Err(NoncePanic))
  {
    hide FromToken, ToToken, WrapDmEpochSecret, UnwrapDmEpochSecret, DeriveDmMessageKey, FrameAad;
    WrapUnwrap(p, secret, pub, priv, c);
    TokenRoundTrip(Bare(epoch, Some(WrapDmEpochSecret(p, secret, pub, c).value)));
  }
}
