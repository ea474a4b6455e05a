/** Two sessions that both seal: whose frames are read, and whose are refused. */
module DmTwoWay {
  import opened Basics
  import opened Crypto
  import opened Kem
  import opened Ratchet
  import opened DmState
  import opened DmMixed
  import opened DmNetwork

  // -- both sides sending ----------------------------------------------------------------------------

  function SlotKey(p: Primitives, secret: Secret, f: SealedDmFrame): Bytes {
    DeriveDmMessageKey(p, secret, f.epoch, f.index)
  }

  /** The ledger has the frames that were sent, under the keys of their slots. */
  ghost predicate Logged(p: Primitives, l: Ledger, mail: seq<Sent>, own: seq<Secret>) {
    forall k :: 0 <= k < |mail| && mail[k].frame.epoch < |own| ==>
      var f := mail[k].frame;
      (f.nonce, f.body) in l && l[(f.nonce, f.body)].key == SlotKey(p, own[f.epoch], f)
  }

  /** For the frames sent in an epoch that both sides have begun, the two secrets give different keys. */
  ghost predicate Separated(p: Primitives, mail: seq<Sent>, own: seq<Secret>, theirs: seq<Secret>) {
    forall k :: 0 <= k < |mail| && mail[k].frame.epoch < |own| && mail[k].frame.epoch < |theirs| ==>
      var f := mail[k].frame;
      SlotKey(p, own[f.epoch], f) != SlotKey(p, theirs[f.epoch], f)
  }

  /** Two-way use: a frame of the other side opens to its plaintext exactly when the receiver has not
      begun its epoch, and has or gets the KAM; in an epoch begun on both sides it is refused. */
  lemma TwoWay(p: Primitives, l: Ledger, ring: Ring, start: Net, es: seq<NetEvent>, to: Side, k: nat)
    requires Correct(p) && Committing(p, l)
    requires KeysFit(p, ring) && Fresh(start) && NumbersLast(p, ring, start, es)
    requires k < |NetRun(p, ring, start, es).At(Other(to)).sent|
    requires var (mail, own) := (NetRun(p, ring, start, es).At(Other(to)).sent, OwnOf(p, ring, start, es, Other(to)));
             Logged(p, l, mail, own) && Separated(p, mail, own, OwnOf(p, ring, start, es, to))
    ensures var n := NetRun(p, ring, start, es);
            var (me, mail) := (n.At(to), n.At(Other(to)).sent);
            var (f, m) := (mail[k].frame, mail[k].plaintext);
            var begun := f.epoch < Begun(p, ring, start, es, to);
            var (after, out) := OpenStep(p, me.session, f, ring.Of(to).priv);
            && (out == Ok(m) <==> !begun && (f.kam.Some? || Announced(mail, me.arrived, f.epoch)))
            && (out != Ok(m) ==>
                 out == Err(if begun then OpenFailed else MissingEpochSecret(f.epoch)) && after == me.session)
  {
    hide OpenStep, NetRun, Begun, NextEpoch, OwnOf, Incoming, NetInvariant, Announced;
    hide DeriveDmMessageKey, UnwrapDmEpochSecret;
    var you := NetRun(p, ring, start, es).At(Other(to));
    var f := you.sent[k].frame;
    InvariantHolds(p, ring, start, es);
    BothSides(p, ring, NetRun(p, ring, start, es), to);
    SentIsGenuine(p, ring.Of(to), you, k);
    OwnSecretsHeld(p, ring, start, es, to, f.epoch);
    OwnSecretsHeld(p, ring, start, es, Other(to), f.epoch);
    Delivery(p, ring, start, es, to, k);
    if f.epoch < |OwnOf(p, ring, start, es, to)| {
      KeyDecides(p, l, OwnOf(p, ring, start, es, to)[f.epoch], f);
    }
  }

  /** A recorded frame does not open under a secret that gives its slot another key. */
  lemma KeyDecides(p: Primitives, l: Ledger, secret: Secret, f: SealedDmFrame)
    requires Committing(p, l) && (f.nonce, f.body) in l && |f.nonce| == NONCE_LEN
    requires SlotKey(p, secret, f) != l[(f.nonce, f.body)].key
    ensures Decrypt(p, secret, f) == Err(OpenFailed)
  {
    hide DeriveDmMessageKey, FrameAad;
  }

  // -- an instance: both sides begin epoch 0 ---------------------------------------------------------

  /** What one side's first seal, of an empty message, puts into the ledger. */
  function FirstEntry(c: Coins): Crypto.Sealing {
    Crypto.Sealing(DeriveDmMessageKey(TOY, c.secret, 0, 0), FrameAad(0, 0), [])
  }

  /** Both first seals; their nonces keep them apart. */
  function FirstEntries(a: Coins, b: Coins): Ledger {
    map[(b.nonce, Zeros(TAG_LEN)) := FirstEntry(b)][(a.nonce, Zeros(TAG_LEN)) := FirstEntry(a)]
  }

  predicate IsFirst(f: SealedDmFrame, c: Coins) {
    f.epoch == 0 && f.index == 0 && f.nonce == c.nonce && f.body == Zeros(TAG_LEN) && f.kam.Some?
  }

  lemma ToyKeys(l: Ledger, ring: Ring)
    requires KeysFit(TOY, ring)
    ensures KeysFit(Committed(l), ring)
    ensures forall d: Side :: |ring.Of(d).pub| == PUBLIC_KEY_LEN
  {
    ToyIsCorrect();
    forall d: Side
      ensures KeyPair(Committed(l), ring.Of(d).pub, ring.Of(d).priv) && |ring.Of(d).pub| == PUBLIC_KEY_LEN
    {
      assert KeyPair(TOY, ring.Of(d).pub, ring.Of(d).priv);
      var seed: Seed, g: Bytes :| HybridKeypair(TOY, seed, g) == HybridKeyPair(ring.Of(d).pub, ring.Of(d).priv);
      assert HybridKeypair(Committed(l), seed, g) == HybridKeypair(TOY, seed, g);
      EncapDecap(TOY, seed, g, seed, g);
    }
  }

  /** The first seal of a new session, by the toy primitives that commit to the ledger. */
  lemma FirstSeal(l: Ledger, s: SessionState, pub: Bytes, c: Coins)
    requires s == NewSession(s.peer, s.msgBound, s.ageBound) && |pub| == PUBLIC_KEY_LEN
    requires (c.nonce, Zeros(TAG_LEN)) in l && l[(c.nonce, Zeros(TAG_LEN))] == FirstEntry(c)
    requires forall n, b :: (n, b) in l ==> |b| == TAG_LEN
    ensures var p := Committed(l);
            var r := SealStep(p, s, [], pub, c).1;
            r.Ok? && IsFirst(r.value, c) && Begins(p, s, Seal([], pub, c))
  {
    hide FrameAad, MessageSalt, MessageInfo;
    var p := Committed(l);
    assert p.hkdf == TOY.hkdf;
    assert [] + Zeros(TAG_LEN) == Zeros(TAG_LEN);
    assert |c.secret + Zeros(TAG_LEN)| > TAG_LEN;
    assert WrapDmEpochSecret(p, c.secret, pub, c.wrap).Ok?;
    assert DeriveDmMessageKey(p, c.secret, 0, 0) == DeriveDmMessageKey(TOY, c.secret, 0, 0);
  }

  lemma ToyKeysDiffer(a: Secret, b: Secret)
    requires First(a) != First(b)
    ensures DeriveDmMessageKey(TOY, a, 0, 0) != DeriveDmMessageKey(TOY, b, 0, 0)
  {
    hide MessageSalt, MessageInfo;
    var info := MessageInfo(0);
    FirstOfFill(32, AddBytes(a, info));
    FirstOfFill(32, AddBytes(b, info));
  }

  /** The network after each side has sealed once. */
  function BothBegin(a: Coins, b: Coins): seq<NetEvent> {
    [Send(Left, [], a), Send(Right, [], b)]
  }

  lemma OneBegin(p: Primitives, s: SessionState, e: Event)
    requires Begins(p, s, e)
    ensures Own(p, s, [e]) == [e.coins.secret]
  {
    hide Begins, Step;
    assert Front([e]) == [];
    assert Run(p, s, []) == s;
  }

  lemma BothSent(p: Primitives, ring: Ring, start: Net, a: Coins, b: Coins)
    requires KeysFit(TOY, ring) && Fresh(start) && a.nonce != b.nonce
    requires p == Committed(FirstEntries(a, b))
    ensures forall d: Side ::
              var (c, mail) := (if d == Left then a else b, NetRun(p, ring, start, BothBegin(a, b)).At(d).sent);
              OwnOf(p, ring, start, BothBegin(a, b), d) == [c.secret] && |mail| == 1 && IsFirst(mail[0].frame, c)
  {
    hide SealStep, FirstEntry, Begins, Committed, Own, IsFirst, Trace;
    var l := FirstEntries(a, b);
    var (e, f) := (Send(Left, [], a), Send(Right, [], b));
    assert FreshParty(start.At(Left)) && FreshParty(start.At(Right));
    ToyKeys(l, ring);
    FirstSeal(l, start.left.session, ring.Of(Right).pub, a);
    FirstSeal(l, start.right.session, ring.Of(Left).pub, b);
    assert BothBegin(a, b) == [e, f] && Front([e, f]) == [e] && Front([e]) == [];
    var n := NetStep(p, ring, start, e);
    assert NetRun(p, ring, start, [e]) == n;
    assert NetRun(p, ring, start, [e, f]) == NetStep(p, ring, n, f);
    BothTraces(p, ring, start, a, b);
    OneBegin(p, start.left.session, Seal([], ring.Of(Right).pub, a));
    OneBegin(p, start.right.session, Seal([], ring.Of(Left).pub, b));
    var end := NetStep(p, ring, n, f);
    assert end.left == n.left && n.right == start.right;
    assert end.left.sent == [Sent(SealStep(p, start.left.session, [], ring.Of(Right).pub, a).1.value, [])];
    assert end.right.sent == [Sent(SealStep(p, start.right.session, [], ring.Of(Left).pub, b).1.value, [])];
    forall d: Side
      ensures OwnOf(p, ring, start, [e, f], d) == [(if d == Left then a else b).secret]
      ensures |end.At(d).sent| == 1 && IsFirst(end.At(d).sent[0].frame, if d == Left then a else b)
    {
    }
  }

  lemma BothTraces(p: Primitives, ring: Ring, start: Net, a: Coins, b: Coins)
    ensures Trace(p, ring, start, BothBegin(a, b), Left) == [Seal([], ring.Of(Right).pub, a)]
    ensures Trace(p, ring, start, BothBegin(a, b), Right) == [Seal([], ring.Of(Left).pub, b)]
  {
    hide NetStep;
    var (e, f) := (Send(Left, [], a), Send(Right, [], b));
    assert BothBegin(a, b) == [e, f] && Front([e, f]) == [e] && Front([e]) == [];
    var n := NetRun(p, ring, start, [e]);
    forall d: Side
      ensures Trace(p, ring, start, [e, f], d) == Calls(ring, start, e, d) + Calls(ring, n, f, d)
    {
      assert NetRun(p, ring, start, []) == start;
      assert Trace(p, ring, start, [e], d) == [] + Calls(ring, start, e, d);
    }
  }

  /** The premises of `TwoWay` hold of this run. */
  lemma BothSeparated(p: Primitives, l: Ledger, ring: Ring, start: Net, a: Coins, b: Coins, to: Side)
    requires KeysFit(TOY, ring) && Fresh(start) && a.nonce != b.nonce && First(a.secret) != First(b.secret)
    requires l == FirstEntries(a, b) && p == Committed(l)
    ensures var es := BothBegin(a, b);
            var mail := NetRun(p, ring, start, es).At(Other(to)).sent;
            var (own, theirs) := (OwnOf(p, ring, start, es, Other(to)), OwnOf(p, ring, start, es, to));
            && |mail| == 1 && |theirs| == 1 && mail[0].frame.epoch == 0
            && Logged(p, l, mail, own) && Separated(p, mail, own, theirs)
  {
    hide NetRun, OwnOf, BothBegin, MessageSalt, MessageInfo, FrameAad;
    BothSent(p, ring, start, a, b);
    ToyKeysDiffer(a.secret, b.secret);
    assert p.hkdf == TOY.hkdf;
    assert forall d: Side :: |NetRun(p, ring, start, BothBegin(a, b)).At(d).sent| == 1;
  }

  /** Two new sessions each seal once, under secrets that differ: each refuses the other's frame,
      although it carries its KAM. */
  lemma ForeignEpochRefused(ring: Ring, start: Net, a: Coins, b: Coins, to: Side)
    requires KeysFit(TOY, ring) && Fresh(start) && a.nonce != b.nonce && First(a.secret) != First(b.secret)
    ensures var n := NetRun(Committed(FirstEntries(a, b)), ring, start, BothBegin(a, b));
            && |n.At(Other(to)).sent| == 1
            && var f := n.At(Other(to)).sent[0].frame;
            && f.kam.Some?
            && OpenStep(Committed(FirstEntries(a, b)), n.At(to).session, f, ring.Of(to).priv)
                 == (n.At(to).session, Err(OpenFailed))
  {
    hide NetRun, OpenStep, OwnOf, Committed, Logged, Separated, Announced, FirstEntries;
    var l := FirstEntries(a, b);
    var (p, es) := (Committed(l), BothBegin(a, b));
    CommittedInstance(l);
    ToyKeys(l, ring);
    BothSeparated(p, l, ring, start, a, b, to);
    BothSent(p, ring, start, a, b);
    forall d: Side ensures Begun(p, ring, start, es, d) <= U64_SIZE {
      assert Begun(p, ring, start, es, d) <= |es|;
    }
    OwnSecretsHeld(p, ring, start, es, to, 0);
    TwoWay(p, l, ring, start, es, to, 0);
  }
}
