/** The cryptographic primitives as parameters, and what the crate relies on them for. */
module Crypto {
  import opened Basics

  /** Library primitives: every random choice is an argument. */
  datatype Primitives = Primitives(
    /** X25519: public key of a seed, and the shared secret of a seed and a public key. */
    x25519Public: Bytes -> Bytes,
    x25519Shared: (Bytes, Bytes) -> Bytes,
    /** ML-KEM-768: key generation `(dk, ek)`, encapsulation `(ct, ss)`, decapsulation. */
    mlkemGenerate: Bytes -> (Bytes, Bytes),
    mlkemEncaps: (Bytes, Bytes) -> Option<(Bytes, Bytes)>,
    mlkemDecaps: (Bytes, Bytes) -> Option<Bytes>,
    /** HKDF-SHA256 with a 32-byte output: input key, salt, info. */
    hkdf: (Bytes, Bytes, Bytes) -> Bytes,
    /** AES-256-GCM: key, nonce, message, associated data. */
    seal: (Bytes, Bytes, Bytes, Bytes) -> Option<Bytes>,
    open: (Bytes, Bytes, Bytes, Bytes) -> Option<Bytes>)

  const X25519_LEN := 32
  const MLKEM_PUB_LEN := 1184
  const MLKEM_SECRET_LEN := 2400
  const MLKEM_CT_LEN := 1088
  const NONCE_LEN := 12
  const TAG_LEN := 16

  type Nonce = b: Bytes | |b| == NONCE_LEN witness Zeros(NONCE_LEN)
  type Seed = b: Bytes | |b| == X25519_LEN witness Zeros(X25519_LEN)

  function Zeros(n: nat): (b: Bytes)
    ensures |b| == n
  {
    seq(n, i => 0)
  }

  ghost predicate X25519Correct(p: Primitives) {
    && (forall a: Seed :: |p.x25519Public(a)| == X25519_LEN)
    && (forall a: Seed, b: Seed :: p.x25519Shared(a, p.x25519Public(b)) == p.x25519Shared(b, p.x25519Public(a)))
  }

  ghost predicate MlkemCorrect(p: Primitives) {
    && (forall r :: |p.mlkemGenerate(r).0| == MLKEM_SECRET_LEN && |p.mlkemGenerate(r).1| == MLKEM_PUB_LEN)
    && (forall ek, r :: p.mlkemEncaps(ek, r).Some? ==> |p.mlkemEncaps(ek, r).value.0| == MLKEM_CT_LEN)
    && (forall g, r :: EncapsDecaps(p, p.mlkemGenerate(g).0, p.mlkemEncaps(p.mlkemGenerate(g).1, r)))
  }

  ghost predicate EncapsDecaps(p: Primitives, dk: Bytes, encapsulated: Option<(Bytes, Bytes)>) {
    encapsulated.Some? ==> p.mlkemDecaps(dk, encapsulated.value.0) == Some(encapsulated.value.1)
  }

  ghost predicate AeadCorrect(p: Primitives) {
    forall k, n, m, d :: p.seal(k, n, m, d).Some? ==>
      |p.seal(k, n, m, d).value| == |m| + TAG_LEN && p.open(k, n, p.seal(k, n, m, d).value, d) == Some(m)
  }

  ghost predicate KemCorrect(p: Primitives) {
    X25519Correct(p) && MlkemCorrect(p)
  }

  /** What delivery and round trips rest on: nothing about secrecy or forgery. */
  ghost predicate Correct(p: Primitives) {
    KemCorrect(p) && AeadCorrect(p)
  }

  // -- an instance, so that the assumptions are known to be consistent ---------------------------

  function Fill(n: nat, b: Byte): (r: Bytes)
    ensures |r| == n
  {
    seq(n, i => b)
  }

  function First(b: Bytes): Byte {
    if b == [] then 0 else b[0]
  }

  function AddBytes(a: Bytes, b: Bytes): Byte {
    (First(a) + First(b)) % 256
  }

  const TOY := Primitives(
    a => a,
    (a, b) => Fill(X25519_LEN, AddBytes(a, b)),
    g => (Fill(MLKEM_SECRET_LEN, First(g)), Fill(MLKEM_PUB_LEN, First(g))),
    (ek, r) => Some((Fill(MLKEM_CT_LEN, First(r)), Fill(32, AddBytes(ek, r)))),
    (dk, ct) => Some(Fill(32, AddBytes(dk, ct))),
    (ikm, salt, info) => Fill(32, AddBytes(ikm, info)),
    (k, n, m, d) => Some(m + Zeros(TAG_LEN)),
    (k, n, c, d) => if |c| < TAG_LEN then None else Some(c[..|c| - TAG_LEN]))

  /** The assumptions hold of the toy instance. */
  lemma ToyIsCorrect()
    ensures Correct(TOY)
  {
    forall k, n, m, d ensures TOY.open(k, n, TOY.seal(k, n, m, d).value, d) == Some(m) {
      assert (m + Zeros(TAG_LEN))[..|m|] == m;
    }
    forall g, r ensures EncapsDecaps(TOY, TOY.mlkemGenerate(g).0, TOY.mlkemEncaps(TOY.mlkemGenerate(g).1, r)) {
      FirstOfFill(MLKEM_CT_LEN, First(r));
      FirstOfFill(MLKEM_SECRET_LEN, First(g));
      FirstOfFill(MLKEM_PUB_LEN, First(g));
    }
  }

  lemma FirstOfFill(n: nat, b: Byte)
    requires n > 0
    ensures First(Fill(n, b)) == b
  {
  }

  // -- ideal authenticated encryption --------------------------------------------------------------

  /** What one encryption bound together; a ciphertext stems from one encryption only. */
  datatype Sealing = Sealing(key: Bytes, aad: Bytes, message: Bytes)

  type Ledger = map<(Bytes, Bytes), Sealing>

  /** Opening succeeds exactly on recorded ciphertexts, under their own key and data. */
  function LedgerOpen(l: Ledger, key: Bytes, nonce: Bytes, body: Bytes, aad: Bytes): Option<Bytes> {
    if (nonce, body) in l && l[(nonce, body)].key == key && l[(nonce, body)].aad == aad
    then Some(l[(nonce, body)].message)
    else None
  }

  /** `open` is the ideal oracle of the ledger; `seal` adds a tag. */
  ghost predicate Ideal(p: Primitives, l: Ledger) {
    && (forall k, n, c, d :: p.open(k, n, c, d) == LedgerOpen(l, k, n, c, d))
    && (forall k, n, m, d :: p.seal(k, n, m, d).Some? ==> |p.seal(k, n, m, d).value| == |m| + TAG_LEN)
  }

  /** Primitives that open by looking into the ledger. */
  function WithLedger(p: Primitives, l: Ledger): Primitives {
    p.(open := (k, n, c, d) => LedgerOpen(l, k, n, c, d))
  }

  /** Every ledger has ideal primitives with a correct KEM. */
  lemma IdealInstance(l: Ledger)
    ensures Ideal(WithLedger(TOY, l), l) && KemCorrect(WithLedger(TOY, l))
  {
    ToyIsCorrect();
    var p := WithLedger(TOY, l);
    assert p.mlkemGenerate == TOY.mlkemGenerate && p.mlkemEncaps == TOY.mlkemEncaps && p.mlkemDecaps == TOY.mlkemDecaps;
    forall g, r ensures EncapsDecaps(p, p.mlkemGenerate(g).0, p.mlkemEncaps(p.mlkemGenerate(g).1, r)) {
      assert EncapsDecaps(TOY, TOY.mlkemGenerate(g).0, TOY.mlkemEncaps(TOY.mlkemGenerate(g).1, r));
    }
  }

  // -- correct encryption that commits recorded ciphertexts to their key ----------------------------

  /** A recorded ciphertext opens under no other key or data; nothing is said of other ciphertexts. */
  ghost predicate Committing(p: Primitives, l: Ledger) {
    forall k, n, c, d :: (n, c) in l && p.open(k, n, c, d).Some? ==> k == l[(n, c)].key && d == l[(n, c)].aad
  }

  /** The toy instance with recorded ciphertexts kept apart: it refuses to seal a second message to one. */
  function Committed(l: Ledger): Primitives {
    TOY.(seal := (k, n, m, d) =>
           if (n, m + Zeros(TAG_LEN)) in l && l[(n, m + Zeros(TAG_LEN))] != Sealing(k, d, m) then None
           else Some(m + Zeros(TAG_LEN)),
         open := (k, n, c, d) =>
           if (n, c) in l then LedgerOpen(l, k, n, c, d) else TOY.open(k, n, c, d))
  }

  /** Every ledger has correct primitives that commit to it. */
  lemma CommittedInstance(l: Ledger)
    ensures Correct(Committed(l)) && Committing(Committed(l), l)
  {
    ToyIsCorrect();
    var p := Committed(l);
    assert p.mlkemGenerate == TOY.mlkemGenerate && p.mlkemEncaps == TOY.mlkemEncaps && p.mlkemDecaps == TOY.mlkemDecaps;
    forall g, r ensures EncapsDecaps(p, p.mlkemGenerate(g).0, p.mlkemEncaps(p.mlkemGenerate(g).1, r)) {
      assert EncapsDecaps(TOY, TOY.mlkemGenerate(g).0, TOY.mlkemEncaps(TOY.mlkemGenerate(g).1, r));
    }
    forall k, n, m, d | p.seal(k, n, m, d).Some?
      ensures p.open(k, n, p.seal(k, n, m, d).value, d) == Some(m)
    {
      assert TOY.open(k, n, TOY.seal(k, n, m, d).value, d) == Some(m);
    }
    forall k, n, c, d | (n, c) in l && p.open(k, n, c, d).Some?
      ensures k == l[(n, c)].key && d == l[(n, c)].aad
    {
      assert p.open(k, n, c, d) == LedgerOpen(l, k, n, c, d);
    }
  }
}
