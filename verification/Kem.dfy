/** The hybrid KEM: layout of keys and ciphertexts, and the concatenate-then-KDF combiner. */
module Kem {
  import opened Basics
  import opened Crypto

  const PUBLIC_KEY_LEN := X25519_LEN + MLKEM_PUB_LEN
  const PRIVATE_KEY_LEN := X25519_LEN + MLKEM_SECRET_LEN
  const CIPHERTEXT_LEN := X25519_LEN + MLKEM_CT_LEN
  const HKDF_INFO: Bytes := Ascii("sk_pqc/x25519-mlkem768/v1")

  datatype KemError =
    | BadLength(expected: nat, got: nat)
    | MlKem

  /** X25519 secret first, then the ML-KEM secret. */
  function Combine(p: Primitives, xSecret: Bytes, mlkemSecret: Bytes): Bytes {
    p.hkdf(xSecret + mlkemSecret, [], HKDF_INFO)
  }

  datatype HybridKeyPair = HybridKeyPair(publicKey: Bytes, privateKey: Bytes)

  function HybridKeypair(p: Primitives, seed: Seed, generate: Bytes): HybridKeyPair {
    var (dk, ek) := p.mlkemGenerate(generate);
    HybridKeyPair(p.x25519Public(seed) + ek, seed + dk)
  }

  function HybridEncap(p: Primitives, peer: Bytes, seed: Seed, r: Bytes): Result<(Bytes, Bytes), KemError> {
    if |peer| != PUBLIC_KEY_LEN then Err(BadLength(PUBLIC_KEY_LEN, |peer|))
    else
      match p.mlkemEncaps(peer[X25519_LEN..], r)
      case None => Err(MlKem)
      case Some((ct, ss)) =>
        Ok((p.x25519Public(seed) + ct, Combine(p, p.x25519Shared(seed, peer[..X25519_LEN]), ss)))
  }

  function HybridDecap(p: Primitives, ct: Bytes, priv: Bytes): Result<Bytes, KemError> {
    if |ct| != CIPHERTEXT_LEN then Err(BadLength(CIPHERTEXT_LEN, |ct|))
    else if |priv| != PRIVATE_KEY_LEN then Err(BadLength(PRIVATE_KEY_LEN, |priv|))
    else
      match p.mlkemDecaps(priv[X25519_LEN..], ct[X25519_LEN..])
      case None => Err(MlKem)
      case Some(ss) => Ok(Combine(p, p.x25519Shared(priv[..X25519_LEN], ct[..X25519_LEN]), ss))
  }

  /** Decapsulating with the matching private key gives the encapsulated secret. */
  lemma EncapDecap(p: Primitives, seed: Seed, generate: Bytes, ephemeral: Seed, r: Bytes)
    requires KemCorrect(p)
    ensures var kp := HybridKeypair(p, seed, generate);
            && |kp.publicKey| == PUBLIC_KEY_LEN && |kp.privateKey| == PRIVATE_KEY_LEN
            && var e := HybridEncap(p, kp.publicKey, ephemeral, r);
            && (e.Err? ==> e.error == MlKem)
            && (e.Ok? ==> |e.value.0| == CIPHERTEXT_LEN && HybridDecap(p, e.value.0, kp.privateKey) == Ok(e.value.1))
  {
    var (dk, ek) := p.mlkemGenerate(generate);
    var pub, priv := p.x25519Public(seed) + ek, seed + dk;
    assert pub[..X25519_LEN] == p.x25519Public(seed) && pub[X25519_LEN..] == ek;
    assert priv[..X25519_LEN] == seed && priv[X25519_LEN..] == dk;
    assert EncapsDecaps(p, p.mlkemGenerate(generate).0, p.mlkemEncaps(p.mlkemGenerate(generate).1, r));
    if p.mlkemEncaps(ek, r).Some? {
      var (c, ss) := p.mlkemEncaps(ek, r).value;
      var ct := p.x25519Public(ephemeral) + c;
      assert ct[..X25519_LEN] == p.x25519Public(ephemeral) && ct[X25519_LEN..] == c;
    }
  }

  // -- what the hybrid secret is made of -------------------------------------------------------------

  /** Keys: the X25519 part first, then the ML-KEM part. */
  lemma KeyParts(p: Primitives, seed: Seed, generate: Bytes)
    requires KemCorrect(p)
    ensures var (kp, ml) := (HybridKeypair(p, seed, generate), p.mlkemGenerate(generate));
            && |kp.publicKey| == 1216 && kp.publicKey[..32] == p.x25519Public(seed) && kp.publicKey[32..] == ml.1
            && |kp.privateKey| == 2432 && kp.privateKey[..32] == seed && kp.privateKey[32..] == ml.0
  {
  }

  /** The encapsulated secret is derived from both shared secrets, the X25519 one first, and the
      ciphertext carries both halves; what fails, and in which order. */
  lemma EncapParts(p: Primitives, peer: Bytes, seed: Seed, r: Bytes)
    ensures HybridEncap(p, peer, seed, r) ==
      if |peer| != 1216 then Err(BadLength(1216, |peer|))
      else
        var (x, m) := (peer[..32], peer[32..]);
        match p.mlkemEncaps(m, r)
        case None => Err(MlKem)
        case Some((ct, ss)) =>
          Ok((p.x25519Public(seed) + ct,
              p.hkdf(p.x25519Shared(seed, x) + ss, [], Ascii("sk_pqc/x25519-mlkem768/v1"))))
  {
  }

  lemma DecapParts(p: Primitives, ct: Bytes, priv: Bytes)
    ensures HybridDecap(p, ct, priv) ==
      if |ct| != 1120 then Err(BadLength(1120, |ct|))
      else if |priv| != 2432 then Err(BadLength(2432, |priv|))
      else
        match p.mlkemDecaps(priv[32..], ct[32..])
        case None => Err(MlKem)
        case Some(ss) =>
          Ok(p.hkdf(p.x25519Shared(priv[..32], ct[..32]) + ss, [], Ascii("sk_pqc/x25519-mlkem768/v1")))
  {
  }

  /** HKDF with this label loses nothing of its input key: an idealisation, met by the identity. */
  ghost predicate CombinerInjective(p: Primitives) {
    var info := Ascii("sk_pqc/x25519-mlkem768/v1");
    forall a, b :: p.hkdf(a, [], info) == p.hkdf(b, [], info) ==> a == b
  }

  /** Then neither half of the hybrid can change alone: equal secrets come from equal X25519 secrets
      and equal ML-KEM secrets. */
  lemma BothHalvesCount(p: Primitives, peer: Bytes, seed: Seed, r: Bytes, peer': Bytes, seed': Seed, r': Bytes)
    requires CombinerInjective(p)
    requires HybridEncap(p, peer, seed, r).Ok? && HybridEncap(p, peer', seed', r').Ok?
    requires HybridEncap(p, peer, seed, r).value.1 == HybridEncap(p, peer', seed', r').value.1
    requires |p.x25519Shared(seed, peer[..32])| == |p.x25519Shared(seed', peer'[..32])|
    ensures p.x25519Shared(seed, peer[..32]) == p.x25519Shared(seed', peer'[..32])
    ensures p.mlkemEncaps(peer[32..], r).value.1 == p.mlkemEncaps(peer'[32..], r').value.1
  {
    EncapParts(p, peer, seed, r);
    EncapParts(p, peer', seed', r');
    var (x, x') := (p.x25519Shared(seed, peer[..32]), p.x25519Shared(seed', peer'[..32]));
    var (m, m') := (p.mlkemEncaps(peer[32..], r).value.1, p.mlkemEncaps(peer'[32..], r').value.1);
    assert x + m == x' + m';
    assert (x + m)[..|x|] == x && (x' + m')[..|x|] == x' && (x + m)[|x|..] == m && (x' + m')[|x|..] == m';
  }
}
