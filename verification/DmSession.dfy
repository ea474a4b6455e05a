/** The stateful session driver, method by method against the state machine of `DmState`. */
module DmSession {
  import opened Basics
  import opened Digits
  import opened Json
  import opened Canonical
  import opened Crypto
  import opened Ratchet
  import opened DmState
  import opened DmSnapshot

  class DmSession {
    var peer: string
    var rekeyMsgBound: U64
    var rekeyAgeSeconds: U64
    var ratchet: DmRatchet?
    var epochSecrets: map<U64, Secret>
    var currentKam: Option<Bytes>

    /** The objects the session owns. */
    ghost function Repr(): set<object>
      reads this
    {
      {this} + if ratchet == null then {} else {ratchet}
    }

    ghost function State(): SessionState
      reads Repr()
    {
      SessionState(peer, rekeyMsgBound, rekeyAgeSeconds,
                   if ratchet == null then None else Some(ratchet.State()), epochSecrets, currentKam)
    }

    /** The invariant of every session built by a constructor and used through its methods. */
    ghost predicate Valid()
      reads Repr()
    {
      Coherent(State())
    }

    constructor New(peer: string)
      ensures Valid() && fresh(Repr()) && State() == NewSession(peer, 50, 604800)
    {
      this.peer, rekeyMsgBound, rekeyAgeSeconds := peer, DEFAULT_REKEY_MSG_BOUND, DEFAULT_REKEY_AGE_SECONDS;
      ratchet, epochSecrets, currentKam := null, map[], None;
    }

    constructor WithBounds(peer: string, msgBound: U64, ageBound: U64)
      ensures Valid() && fresh(Repr()) && State() == NewSession(peer, msgBound, ageBound)
    {
      this.peer, rekeyMsgBound, rekeyAgeSeconds := peer, msgBound, ageBound;
      ratchet, epochSecrets, currentKam := null, map[], None;
    }

    /** A session with the given parts; it takes over the ratchet. */
    constructor FromParts(peer: string, msgBound: U64, ageBound: U64, ratchet: DmRatchet?,
        secrets: map<U64, Secret>, kam: Option<Bytes>)
      ensures this.ratchet == ratchet && fresh(this)
      ensures State() == SessionState(peer, msgBound, ageBound,
                           if ratchet == null then None else Some(ratchet.State()), secrets, kam)
    {
      this.peer, rekeyMsgBound, rekeyAgeSeconds := peer, msgBound, ageBound;
      this.ratchet, epochSecrets, currentKam := ratchet, secrets, kam;
    }

    /** Wraps before touching any field, so a failure leaves the session as it was. */
    method BeginEpoch(p: Primitives, epoch: U64, pub: Bytes, c: Coins) returns (failure: Option<DmSessionError>)
      modifies this
      ensures fresh(Repr() - old(Repr()))
      ensures match DmState.BeginEpoch(p, old(State()), epoch, pub, c)
              case Err(e) => failure == Some(e) && State() == old(State())
              case Ok(after) => failure == None && State() == after
    {
      var kam := WrapDmEpochSecret(p, c.secret, pub, c.wrap);
      if kam.Err? {
        return Some(RatchetFailed(kam.error));
      }
      epochSecrets := epochSecrets[epoch := c.secret];
      ratchet := new DmRatchet.WithBounds(epoch, c.secret, rekeyMsgBound, rekeyAgeSeconds, c.startedAt);
      currentKam := Some(kam.value);
      return None;
    }

    method Seal(p: Primitives, plaintext: Bytes, pub: Bytes, c: Coins)
        returns (r: Result<SealedDmFrame, DmSessionError>)
      modifies Repr()
      ensures fresh(Repr() - old(Repr()))
      ensures (State(), r) == SealStep(p, old(State()), plaintext, pub, c)
      ensures old(Valid()) ==> Valid()
    {
      hide WrapDmEpochSecret, DeriveDmMessageKey, FrameAad, Coherent;
      ghost var before := State();
      if Coherent(before) {
        SealCoherent(p, before, plaintext, pub, c);
      }
      var beginAt := None;
      if ratchet == null {
        beginAt := Some(0);
      } else if ratchet.State().Due(c.checkedAt) {
        beginAt := Some((ratchet.epoch + 1) % U64_SIZE);
      }
      assert beginAt == BeginAt(before, c.checkedAt);
      if beginAt.Some? {
        var failure := BeginEpoch(p, beginAt.value, pub, c);
        if failure.Some? {
          return Err(failure.value);
        }
      }
      var epoch := ratchet.epoch;
      var idx, key := ratchet.NextOutboundKey(p);
      var kam := if idx < KAM_REPEAT then currentKam else None;
      var body := p.seal(key, c.nonce, plaintext, FrameAad(epoch, idx));
      if body.None? {
        return Err(OpenFailed);
      }
      return Ok(SealedDmFrame(epoch, idx, c.nonce, body.value, kam));
    }

    method Open(p: Primitives, frame: SealedDmFrame, priv: Bytes) returns (r: Result<Bytes, DmSessionError>)
      modifies this
      ensures Repr() == old(Repr())
      ensures (State(), r) == OpenStep(p, old(State()), frame, priv)
      ensures old(Valid()) ==> Valid()
    {
      hide UnwrapDmEpochSecret, Decrypt, Coherent;
      ghost var before := State();
      if Coherent(before) {
        OpenCoherent(p, before, frame, priv);
      }
      if frame.kam.Some? && frame.epoch !in epochSecrets {
        var secret := UnwrapDmEpochSecret(p, frame.kam.value, priv);
        if secret.Err? {
          return Err(RatchetFailed(secret.error));
        }
        epochSecrets := epochSecrets[frame.epoch := secret.value];
      }
      if frame.epoch !in epochSecrets {
        return Err(MissingEpochSecret(frame.epoch));
      }
      r := DecryptBody(p, epochSecrets[frame.epoch], frame);
      assert State() == OpenStep(p, before, frame, priv).0;
    }

    /** The key of the slot, its associated data, and the decryption. */
    static method DecryptBody(p: Primitives, secret: Secret, frame: SealedDmFrame)
        returns (r: Result<Bytes, DmSessionError>)
      ensures r == Decrypt(p, secret, frame)
    {
      var key := DeriveDmMessageKey(p, secret, frame.epoch, frame.index);
      var aad := FrameAad(frame.epoch, frame.index);
      if |frame.nonce| != NONCE_LEN {
        return Err(NoncePanic);
      }
      var plain := p.open(key, frame.nonce, frame.body, aad);
      return if plain.Some? then Ok(plain.value) else Err(OpenFailed);
    }

    /** Collects the secrets under decimal keys, then the other fields. */
    method Save() returns (snap: Json)
      ensures snap == Snapshot(State())
    {
      var secrets := SaveSecrets(epochSecrets);
      snap := Object(map[
        "v" := Number(1),
        "peer" := String(peer),
        "rekey_msg_bound" := Number(rekeyMsgBound),
        "rekey_age_seconds" := Number(rekeyAgeSeconds),
        "epoch_secrets" := Object(secrets),
        "current_kam" := KamJson(currentKam),
        "ratchet" := RatchetJson(if ratchet == null then None else Some(ratchet.State()))]);
    }

    /** Rebuilds a session, reading the saved secrets one key at a time. */
    static method Rebuild(snap: Json) returns (r: Result<DmSession, DmSessionError>)
      ensures match r
              case Ok(s) => fresh(s.Repr()) && Restore(snap) == Ok(s.State())
              case Err(e) => Restore(snap) == Err(e)
    {
      hide SavedSecrets, SavedKam, SavedRatchet;
      var peer := Get(snap, "peer");
      var msgBound, ageBound := GetU64(snap, "rekey_msg_bound"), GetU64(snap, "rekey_age_seconds");
      if peer.None? || !peer.value.String? || msgBound.None? || ageBound.None? {
        return Err(BadToken);
      }
      var secrets := LoadSecrets(snap);
      var kam := SavedKam(snap);
      if secrets.None? || kam.None? {
        return Err(BadToken);
      }
      var saved := SavedRatchet(snap, msgBound.value, ageBound.value, secrets.value);
      if saved.None? {
        return Err(BadToken);
      }
      var ratchet: DmRatchet? := null;
      if saved.value.Some? {
        ratchet := new DmRatchet(saved.value.value);
      }
      var s := new DmSession.FromParts(peer.value.s, msgBound.value, ageBound.value, ratchet, secrets.value, kam.value);
      return Ok(s);
    }
  }

  lemma SecretsJsonStep(secrets: map<U64, Secret>, epoch: U64, secret: Secret)
    ensures SecretsJson(secrets[epoch := secret])
         == SecretsJson(secrets)[ToString(epoch) := String(HexEncode(secret))]
  {
    hide ToString, HexEncode;
    ToStringIsInjective();
  }

  /** The loop over the secret store, in whatever order it yields its entries. */
  method SaveSecrets(store: map<U64, Secret>) returns (saved: map<string, Json>)
    ensures saved == SecretsJson(store)
  {
    hide SecretsJson, ToString, HexEncode;
    saved := map[];
    assert saved == SecretsJson(map[]) by { NothingSaved(); }
    ghost var done: map<U64, Secret> := map[];
    var left := store.Keys;
    while left != {}
      invariant left <= store.Keys
      invariant done == store - left
      invariant saved == SecretsJson(done)
      decreases left
    {
      var epoch :| epoch in left;
      SecretsJsonStep(done, epoch, store[epoch]);
      saved := saved[ToString(epoch) := String(HexEncode(store[epoch]))];
      done := done[epoch := store[epoch]];
      left := left - {epoch};
    }
    assert store - {} == store;
  }

  lemma NothingSaved()
    ensures SecretsJson(map[]) == map[]
  {
  }

  method LoadSecrets(snap: Json) returns (secrets: Option<map<U64, Secret>>)
    ensures secrets == SavedSecrets(snap)
  {
    hide ReadSecrets;
    var field := Get(snap, "epoch_secrets");
    if field.None? || !field.value.Object? {
      return Some(map[]);
    }
    var saved := field.value.members;
    var keys := CollectKeys(saved);
    secrets := LoadEntries(keys, saved);
  }

  /** The loop over the saved entries; it stops at the first malformed one. */
  method LoadEntries(keys: seq<string>, saved: map<string, Json>) returns (secrets: Option<map<U64, Secret>>)
    requires forall k :: k in keys ==> k in saved
    ensures secrets == ReadSecrets(keys, saved, map[])
  {
    hide ParseU64, ReadSecret;
    var store: map<U64, Secret> := map[];
    for i := 0 to |keys|
      invariant ReadSecrets(keys[i..], saved, store) == ReadSecrets(keys, saved, map[])
    {
      assert keys[i..][1..] == keys[i + 1..];
      var epoch, secret := ParseU64(keys[i]), ReadSecret(saved[keys[i]]);
      if epoch.None? || secret.None? {
        return None;
      }
      store := store[epoch.value := secret.value];
    }
    return Some(store);
  }
}
