/** The one-shot hybrid seal and its downgrade-lock associated data. */
module PqDm {
  import opened Basics
  import opened Order
  import opened Utf8
  import opened Crypto
  import opened Kem
  import opened Ratchet
  import opened Json
  import opened JsonLaws

  const HYBRID_SUITE := "x25519-mlkem768"
  const CLASSICAL_SUITE := "x25519-pgp-wrap-v1"
  const INFO_WRAP: Bytes := Ascii("skcomms/pqdm/wrap/v1")
  const SEALED_MIN_LEN := CIPHERTEXT_LEN + NONCE_LEN + TAG_LEN

  datatype PqDmError =
    | Format
    | DowngradeDetected
    | KemError(kem: KemError)

  // -- downgrade-lock AAD --------------------------------------------------------------------------

  /** The four fields that the associated data binds. */
  function LockFields(suite: string, sender: string, recipient: string): Json {
    Object(map[
      "v" := Number(1),
      "negotiated_suite" := String(suite),
      "sender" := String(sender),
      "recipient" := String(recipient)])
  }

  function ExtraBytes(extra: Option<Bytes>): Bytes {
    match extra case None => [] case Some(b) => b
  }

  /** Compact sorted JSON as `serde_json` prints it, then the extra bytes verbatim. */
  ghost function DowngradeLockAad(suite: string, sender: string, recipient: string, extra: Option<Bytes>): Bytes {
    Print(LockFields(suite, sender, recipient), RawUtf8) + ExtraBytes(extra)
  }

  const LOCK_KEYS: seq<string> := ["negotiated_suite", "recipient", "sender", "v"]

  lemma LockKeysSorted()
    ensures Sorted(TextLess, LOCK_KEYS)
  {
    hide TextLess;
    var ks := LOCK_KEYS;
    assert ks[0][0] == 'n' && ks[1][0] == 'r' && ks[2][0] == 's' && ks[3][0] == 'v';
    forall i, j | 0 <= i < j < |ks| ensures TextLess(ks[i], ks[j]) {
      FirstCharDecides(ks[i], ks[j]);
    }
  }

  lemma LockKeyOrder(keys: set<string>)
    requires keys == {"v", "negotiated_suite", "sender", "recipient"}
    ensures SortedKeys(keys) == LOCK_KEYS
  {
    hide TextLess;
    LockKeysSorted();
    var ks := LOCK_KEYS;
    assert ks[0] in Elements(ks) && ks[1] in Elements(ks) && ks[2] in Elements(ks) && ks[3] in Elements(ks);
    assert Elements(ks) == keys;
    TextOrderIsStrict(keys);
    SortedUnique(TextLess, SortedKeys(keys), ks);
  }

  /** `"key":`, the lead-in of one member. */
  function Lead(key: string): Bytes {
    PrintString(key, RawUtf8) + [COLON]
  }

  function TextMember(key: string, text: string): Bytes {
    Lead(key) + PrintString(text, RawUtf8)
  }

  function Joined(a: Bytes, b: Bytes, c: Bytes, d: Bytes): Bytes {
    a + [COMMA] + b + [COMMA] + c + [COMMA] + d
  }

  /** The head spelled out: `{"negotiated_suite":S,"recipient":R,"sender":F,"v":1}`. */
  function LockHead(suite: string, sender: string, recipient: string): Bytes {
    [0x7B]
    + Joined(TextMember("negotiated_suite", suite), TextMember("recipient", recipient),
             TextMember("sender", sender), Lead("v") + [0x31])
    + [0x7D]
  }

  lemma HeadLayout(suite: string, sender: string, recipient: string)
    ensures Print(LockFields(suite, sender, recipient), RawUtf8) == LockHead(suite, sender, recipient)
  {
    hide Print, TextMember, Lead, Joined;
    var v := LockFields(suite, sender, recipient);
    LockKeyOrder(v.members.Keys);
    HeadOfFour(v, "negotiated_suite", "recipient", "sender", "v", suite, recipient, sender);
  }

  lemma HeadOfFour(v: Json, k0: string, k1: string, k2: string, k3: string, s0: string, s1: string, s2: string)
    requires v.Object? && SortedKeys(v.members.Keys) == [k0, k1, k2, k3]
    requires KeysOf([k0, k1, k2, k3], v)
    requires k0 in v.members && k1 in v.members && k2 in v.members && k3 in v.members
    requires v.members[k0] == String(s0) && v.members[k1] == String(s1) && v.members[k2] == String(s2)
    requires v.members[k3] == Number(1)
    ensures Print(v, RawUtf8) ==
      [0x7B] + Joined(TextMember(k0, s0), TextMember(k1, s1), TextMember(k2, s2), Lead(k3) + [0x31]) + [0x7D]
  {
    hide Print, PrintMember, PrintMembers, TextMember, Lead, Joined;
    PrintObject(v);
    MembersOfFour([k0, k1, k2, k3], v);
    StringMember(v, k0, s0);
    StringMember(v, k1, s1);
    StringMember(v, k2, s2);
    VersionMember(v, k3);
  }

  lemma PrintObject(v: Json)
    requires v.Object? && KeysOf(SortedKeys(v.members.Keys), v)
    ensures Print(v, RawUtf8) == [0x7B] + PrintMembers(SortedKeys(v.members.Keys), v, RawUtf8) + [0x7D]
  {
    hide PrintItems, PrintMembers;
  }

  lemma StringMember(v: Json, k: string, s: string)
    requires v.Object? && k in v.members && v.members[k] == String(s)
    ensures PrintMember(k, v, RawUtf8) == TextMember(k, s)
  {
    hide PrintString;
  }

  lemma VersionMember(v: Json, k: string)
    requires v.Object? && k in v.members && v.members[k] == Number(1)
    ensures PrintMember(k, v, RawUtf8) == Lead(k) + [0x31]
  {
    hide PrintString;
  }

  lemma MembersOfFour(ks: seq<string>, v: Json)
    requires |ks| == 4 && KeysOf(ks, v)
    ensures PrintMembers(ks, v, RawUtf8)
         == Joined(PrintMember(ks[0], v, RawUtf8), PrintMember(ks[1], v, RawUtf8),
                   PrintMember(ks[2], v, RawUtf8), PrintMember(ks[3], v, RawUtf8))
  {
    hide PrintMember;
    var k1, k2, k3 := ks[1..], ks[2..], ks[3..];
    assert k1[1..] == k2 && k2[1..] == k3;
    assert PrintMembers(k3, v, RawUtf8) == PrintMember(ks[3], v, RawUtf8);
    assert PrintMembers(k2, v, RawUtf8) == PrintMember(ks[2], v, RawUtf8) + [COMMA] + PrintMembers(k3, v, RawUtf8);
    assert PrintMembers(k1, v, RawUtf8) == PrintMember(ks[1], v, RawUtf8) + [COMMA] + PrintMembers(k2, v, RawUtf8);
  }

  /** `downgrade_lock_aad`: the JSON head in a buffer, the extra bytes after it. */
  method BuildAad(suite: string, sender: string, recipient: string, extra: Option<Bytes>) returns (aad: Bytes)
    ensures aad == DowngradeLockAad(suite, sender, recipient, extra)
  {
    hide Print, LockHead;
    HeadLayout(suite, sender, recipient);
    var head := new ByteBuffer();
    head.Extend(LockHead(suite, sender, recipient));
    if extra.Some? {
      head.Extend(extra.value);
    }
    aad := head.bytes;
  }

  // -- sealing and opening ---------------------------------------------------------------------------

  function WrapKey(p: Primitives, shared: Bytes, aad: Bytes): Bytes {
    p.hkdf(shared, [], INFO_WRAP + [0x7C] + aad)
  }

  ghost function Seal(p: Primitives, plaintext: Bytes, pub: Bytes, sender: string, recipient: string, c: WrapCoins)
    : Result<Bytes, PqDmError>
  {
    if |pub| != PUBLIC_KEY_LEN then Err(Format)
    else
      var aad := DowngradeLockAad(HYBRID_SUITE, sender, recipient, None);
      match HybridEncap(p, pub, c.ephemeral, c.encaps)
      case Err(e) => Err(KemError(e))
      case Ok((ct, shared)) =>
        match p.seal(WrapKey(p, shared, aad), c.nonce, plaintext, aad)
        case None => Err(Format)
        case Some(body) => Ok(ct + c.nonce + body)
  }

  ghost function OpenSealed(p: Primitives, sealed: Bytes, priv: Bytes, sender: string, recipient: string, suite: string)
    : Result<Bytes, PqDmError>
  {
    if |sealed| < SEALED_MIN_LEN then Err(Format)
    else
      var aad := DowngradeLockAad(suite, sender, recipient, None);
      match HybridDecap(p, sealed[..CIPHERTEXT_LEN], priv)
      case Err(e) => Err(KemError(e))
      case Ok(shared) =>
        var nonce := sealed[CIPHERTEXT_LEN..CIPHERTEXT_LEN + NONCE_LEN];
        match p.open(WrapKey(p, shared, aad), nonce, sealed[CIPHERTEXT_LEN + NONCE_LEN..], aad)
        case None => Err(DowngradeDetected)
        case Some(plain) => Ok(plain)
  }

  /** `seal`, into one buffer. */
  method SealBody(p: Primitives, plaintext: Bytes, pub: Bytes, sender: string, recipient: string, c: WrapCoins)
      returns (r: Result<Bytes, PqDmError>)
    ensures r == Seal(p, plaintext, pub, sender, recipient, c)
  {
    hide DowngradeLockAad;
    if |pub| != PUBLIC_KEY_LEN {
      return Err(Format);
    }
    var aad := BuildAad(HYBRID_SUITE, sender, recipient, None);
    var encapsulated := HybridEncap(p, pub, c.ephemeral, c.encaps);
    if encapsulated.Err? {
      return Err(KemError(encapsulated.error));
    }
    var (ct, shared) := encapsulated.value;
    var body := p.seal(WrapKey(p, shared, aad), c.nonce, plaintext, aad);
    if body.None? {
      return Err(Format);
    }
    var sealed := new ByteBuffer();
    sealed.Extend(ct);
    sealed.Extend(c.nonce);
    sealed.Extend(body.value);
    assert sealed.bytes == ct + c.nonce + body.value;
    return Ok(sealed.bytes);
  }

  // -- unambiguity -----------------------------------------------------------------------------------

  /** The associated data determines suite, parties and extra bytes; an absent extra counts as empty. */
  lemma AadInjective(s: string, a: string, b: string, x: Option<Bytes>,
      s': string, a': string, b': string, x': Option<Bytes>)
    requires DowngradeLockAad(s, a, b, x) == DowngradeLockAad(s', a', b', x')
    ensures s == s' && a == a' && b == b' && ExtraBytes(x) == ExtraBytes(x')
  {
    hide Print;
    var v, w := LockFields(s, a, b), LockFields(s', a', b');
    ObjectSelfDelimiting(v, w, RawUtf8, ExtraBytes(x), ExtraBytes(x'));
    assert v.members["negotiated_suite"] == w.members["negotiated_suite"];
    assert v.members["sender"] == w.members["sender"];
    assert v.members["recipient"] == w.members["recipient"];
  }

  /** The associated data is the canonical, ASCII-escaped encoding exactly when no character of the
      three strings lies above U+007E. */
  lemma AadIsCanonical(s: string, a: string, b: string)
    ensures DowngradeLockAad(s, a, b, None) == Print(LockFields(s, a, b), AsciiOnly)
       <==> BelowDelete(s) && BelowDelete(a) && BelowDelete(b)
  {
    hide Print, AllBelowDelete;
    var v := LockFields(s, a, b);
    EncodersAgree(v);
    assert DowngradeLockAad(s, a, b, None) == Print(v, RawUtf8);
    LockFieldsBelow(s, a, b);
  }

  lemma LockFieldsBelow(s: string, a: string, b: string)
    ensures AllBelowDelete(LockFields(s, a, b)) == (BelowDelete(s) && BelowDelete(a) && BelowDelete(b))
  {
    hide BelowDelete;
    var m := LockFields(s, a, b).members;
    assert m["negotiated_suite"] == String(s) && m["sender"] == String(a) && m["recipient"] == String(b);
    LockKeysBelow();
    assert AllBelowDelete(Number(1));
    assert m.Keys == {"v", "negotiated_suite", "sender", "recipient"};
  }

  lemma LockKeysBelow()
    ensures BelowDelete("v") && BelowDelete("negotiated_suite") && BelowDelete("sender") && BelowDelete("recipient")
  {
  }

  // -- what the lock says ----------------------------------------------------------------------------

  /** Any JSON reader gets the suite and the two parties back, each under its name. */
  lemma LockReads(suite: string, sender: string, recipient: string, limit: nat)
    requires limit > 0
    ensures ParseDocument(DowngradeLockAad(suite, sender, recipient, None), limit) == Some(Object(map[
      "negotiated_suite" := String(suite), "recipient" := String(recipient),
      "sender" := String(sender), "v" := Number(1)]))
  {
    hide Print, ReadValue, Fits;
    var v := LockFields(suite, sender, recipient);
    assert Print(v, RawUtf8) + [] == Print(v, RawUtf8);
    DocumentRoundTrip(v, RawUtf8, limit);
    LockFits(v, limit);
    DistinctNames();
    assert v.members == map[
      "negotiated_suite" := String(suite), "recipient" := String(recipient),
      "sender" := String(sender), "v" := Number(1)];
  }

  lemma DistinctNames()
    ensures forall i, j :: 0 <= i < j < |LOCK_KEYS| ==> LOCK_KEYS[i] != LOCK_KEYS[j]
  {
    var ks := LOCK_KEYS;
    assert ks[0][0] == 'n' && ks[1][0] == 'r' && ks[2][0] == 's' && ks[3][0] == 'v';
  }

  lemma LockFits(v: Json, limit: nat)
    requires v.Object? && limit > 0 && forall k :: k in v.members ==> v.members[k].String? || v.members[k].Number?
    ensures Fits(v, limit)
  {
  }

  /** Text that JSON prints as it is: no quote, backslash or control character. */
  predicate Verbatim(s: string) {
    forall i :: 0 <= i < |s| ==> s[i] as int >= 0x20 && s[i] != '"' && s[i] != '\\'
  }

  lemma {:induction false} VerbatimPrints(s: string)
    requires Verbatim(s)
    ensures EscapeAll(s, RawUtf8) == Encode(s)
  {
    if s != "" {
      VerbatimPrints(s[1..]);
    }
  }

  /** `"key":"text"`, character by character. */
  function Plain(key: string, text: string): Bytes {
    [0x22] + Encode(key) + [0x22, 0x3A, 0x22] + Encode(text) + [0x22]
  }

  /** For such names the lock is `{"negotiated_suite":"…","recipient":"…","sender":"…","v":1}` in UTF-8,
      and the extra bytes after it. */
  lemma LockText(suite: string, sender: string, recipient: string, extra: Option<Bytes>)
    requires Verbatim(suite) && Verbatim(sender) && Verbatim(recipient)
    ensures DowngradeLockAad(suite, sender, recipient, extra) ==
      [0x7B] + Plain("negotiated_suite", suite) + [0x2C] + Plain("recipient", recipient)
      + [0x2C] + Plain("sender", sender) + [0x2C, 0x22, 0x76, 0x22, 0x3A, 0x31, 0x7D]
      + (if extra.Some? then extra.value else [])
  {
    hide Print, TextMember, Plain, Lead;
    HeadLayout(suite, sender, recipient);
    PlainMember("negotiated_suite", suite);
    PlainMember("recipient", recipient);
    PlainMember("sender", sender);
    VersionText();
    assert LockHead(suite, sender, recipient) ==
      [0x7B] + Plain("negotiated_suite", suite) + [0x2C] + Plain("recipient", recipient)
      + [0x2C] + Plain("sender", sender) + [0x2C, 0x22, 0x76, 0x22, 0x3A, 0x31, 0x7D];
  }

  lemma VersionText()
    ensures Lead("v") + [0x31] == [0x22, 0x76, 0x22, 0x3A, 0x31]
  {
    hide EscapeAll;
    VerbatimPrints("v");
    assert Encode("v") == [0x76];
  }

  lemma PlainMember(key: string, text: string)
    requires Verbatim(key) && Verbatim(text)
    ensures TextMember(key, text) == Plain(key, text)
  {
    hide EscapeAll, Encode;
    VerbatimPrints(key);
    VerbatimPrints(text);
  }

  // -- downgrade lock --------------------------------------------------------------------------------

  datatype Parts = Parts(shared: Bytes, key: Bytes, aad: Bytes, body: Bytes)

  ghost function PartsOf(p: Primitives, plaintext: Bytes, pub: Bytes, sender: string, recipient: string, c: WrapCoins)
    : Parts
    requires Seal(p, plaintext, pub, sender, recipient, c).Ok?
  {
    var aad := DowngradeLockAad(HYBRID_SUITE, sender, recipient, None);
    var shared := HybridEncap(p, pub, c.ephemeral, c.encaps).value.1;
    var key := WrapKey(p, shared, aad);
    Parts(shared, key, aad, p.seal(key, c.nonce, plaintext, aad).value)
  }

  lemma OpenTakesApart(p: Primitives, plaintext: Bytes, pub: Bytes, priv: Bytes, sender: string, recipient: string,
      c: WrapCoins, sender': string, recipient': string, suite: string)
    requires KemCorrect(p) && KeyPair(p, pub, priv)
    requires Seal(p, plaintext, pub, sender, recipient, c).Ok?
    requires |PartsOf(p, plaintext, pub, sender, recipient, c).body| >= TAG_LEN
    ensures var x := PartsOf(p, plaintext, pub, sender, recipient, c);
            var aad := DowngradeLockAad(suite, sender', recipient', None);
            OpenSealed(p, Seal(p, plaintext, pub, sender, recipient, c).value, priv, sender', recipient', suite)
              == match p.open(WrapKey(p, x.shared, aad), c.nonce, x.body, aad)
                 case None => Err(DowngradeDetected)
                 case Some(plain) => Ok(plain)
  {
    hide DowngradeLockAad, WrapKey;
    var seed: Seed, g: Bytes :| HybridKeypair(p, seed, g) == HybridKeyPair(pub, priv);
    EncapDecap(p, seed, g, c.ephemeral, c.encaps);
    var x := PartsOf(p, plaintext, pub, sender, recipient, c);
    var sealed := Seal(p, plaintext, pub, sender, recipient, c).value;
    var ct := HybridEncap(p, pub, c.ephemeral, c.encaps).value.0;
    assert sealed == ct + c.nonce + x.body;
    assert sealed[..CIPHERTEXT_LEN] == ct;
    assert sealed[CIPHERTEXT_LEN..CIPHERTEXT_LEN + NONCE_LEN] == c.nonce;
    assert sealed[CIPHERTEXT_LEN + NONCE_LEN..] == x.body;
  }

  /** The intended recipient opens what was sealed. */
  lemma SealRoundTrip(p: Primitives, plaintext: Bytes, pub: Bytes, priv: Bytes, sender: string, recipient: string,
      c: WrapCoins)
    requires Correct(p) && KeyPair(p, pub, priv)
    requires Seal(p, plaintext, pub, sender, recipient, c).Ok?
    ensures OpenSealed(p, Seal(p, plaintext, pub, sender, recipient, c).value, priv, sender, recipient, HYBRID_SUITE)
         == Ok(plaintext)
  {
    hide DowngradeLockAad, WrapKey;
    OpenTakesApart(p, plaintext, pub, priv, sender, recipient, c, sender, recipient, HYBRID_SUITE);
  }

  /** The ledger holds this sealing, so its ciphertext stems from no other one. */
  ghost predicate Recorded(p: Primitives, l: Ledger, plaintext: Bytes, pub: Bytes, sender: string, recipient: string,
      c: WrapCoins)
  {
    && Seal(p, plaintext, pub, sender, recipient, c).Ok?
    && var x := PartsOf(p, plaintext, pub, sender, recipient, c);
    && (c.nonce, x.body) in l
    && l[(c.nonce, x.body)] == Sealing(x.key, x.aad, plaintext)
  }

  /** Any sealed body can be the recorded one: the assumptions below are met for all inputs. */
  lemma RecordedInstance(plaintext: Bytes, sender: string, recipient: string, c: WrapCoins, seed: Seed, g: Bytes)
      returns (p: Primitives, l: Ledger, pub: Bytes, priv: Bytes)
    ensures Ideal(p, l) && KemCorrect(p) && KeyPair(p, pub, priv)
    ensures Recorded(p, l, plaintext, pub, sender, recipient, c)
  {
    hide DowngradeLockAad;
    ToyIsCorrect();
    var kp := HybridKeypair(TOY, seed, g);
    pub, priv := kp.publicKey, kp.privateKey;
    EncapDecap(TOY, seed, g, c.ephemeral, c.encaps);
    var x := PartsOf(TOY, plaintext, pub, sender, recipient, c);
    l := map[(c.nonce, x.body) := Sealing(x.key, x.aad, plaintext)];
    p := WithLedger(TOY, l);
    IdealInstance(l);
    assert HybridKeypair(p, seed, g) == kp;
    assert PartsOf(p, plaintext, pub, sender, recipient, c) == x;
  }

  /** With an ideal AEAD a sealed body opens exactly under the hybrid suite and the sealed parties;
      any other expectation is reported as a downgrade. */
  lemma DowngradeLock(p: Primitives, l: Ledger, plaintext: Bytes, pub: Bytes, priv: Bytes, sender: string,
      recipient: string, c: WrapCoins, sender': string, recipient': string, suite: string)
    requires Ideal(p, l) && KemCorrect(p) && KeyPair(p, pub, priv)
    requires Recorded(p, l, plaintext, pub, sender, recipient, c)
    ensures OpenSealed(p, Seal(p, plaintext, pub, sender, recipient, c).value, priv, sender', recipient', suite) ==
      if suite == HYBRID_SUITE && sender' == sender && recipient' == recipient then Ok(plaintext)
      else Err(DowngradeDetected)
  {
    hide DowngradeLockAad, WrapKey;
    OpenTakesApart(p, plaintext, pub, priv, sender, recipient, c, sender', recipient', suite);
    var aad := DowngradeLockAad(suite, sender', recipient', None);
    if aad == PartsOf(p, plaintext, pub, sender, recipient, c).aad {
      AadInjective(suite, sender', recipient', None, HYBRID_SUITE, sender, recipient, None);
    }
  }
}
