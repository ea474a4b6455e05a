/** Where delivery ends: an epoch number that comes back. */
module DmWrap {
  import opened Basics
  import opened Crypto
  import opened Kem
  import opened Ratchet
  import opened DmState
  import opened DmMixed
  import opened DmNetwork
  import opened DmTwoWay

  /** Delivery ends with the epoch numbers. After 2^64 epochs of one side the next one reuses number 0,
      and a receiver that learnt the first epoch 0 refuses its frames, KAM and all. */
  lemma DeliveryEndsAtWrap(p: Primitives, l: Ledger, ring: Ring, start: Net, es: seq<NetEvent>, to: Side,
      m: Bytes, c: Coins, f: SealedDmFrame)
    requires Correct(p) && Committing(p, l) && KeysFit(p, ring) && Fresh(start)
    requires Begun(p, ring, start, es, Other(to)) == U64_SIZE && Begun(p, ring, start, es, to) == 0
    requires Announced(NetRun(p, ring, start, es).At(Other(to)).sent, NetRun(p, ring, start, es).At(to).arrived, 0)
    requires BeginsAt(p, ring, NetRun(p, ring, start, es), Send(Other(to), m, c), Other(to))
    requires SealStep(p, NetRun(p, ring, start, es).At(Other(to)).session, m, ring.Of(to).pub, c).1 == Ok(f)
    requires Logged(p, l, [Sent(f, m)], [c.secret])
    requires Separated(p, [Sent(f, m)], [c.secret], OwnOf(p, ring, start, es, Other(to)))
    ensures f.epoch == 0 && f.kam.Some?
    ensures var me := NetRun(p, ring, start, es).At(to).session;
            OpenStep(p, me, f, ring.Of(to).priv) == (me, Err(OpenFailed))
  {
    hide NetRun, OwnOf, Outgoing, NetInvariant, Announced, Begins, SealStep, OpenStep, SlotKey, Logged, NextEpoch;
    var n := NetRun(p, ring, start, es);
    var (me, you, own) := (n.At(to), n.At(Other(to)), OwnOf(p, ring, start, es, Other(to)));
    forall d: Side ensures Begun(p, ring, start, es, d) <= U64_SIZE {
      assert d == to || d == Other(to);
    }
    InvariantHolds(p, ring, start, es);
    BothSides(p, ring, n, to);
    OwnSecretsHeld(p, ring, start, es, Other(to), 0);
    WrappedSeal(p, you.session, m, ring.Of(to).pub, c);
    assert me.session.secrets[0] == own[0];
    assert SlotKey(p, c.secret, f) != SlotKey(p, own[0], f) by {
      assert [Sent(f, m)][0].frame == f;
    }
    RefusedByKey(p, l, me.session, f, ring.Of(to).priv, m, c.secret);
  }

  lemma WrappedSeal(p: Primitives, s: SessionState, m: Bytes, pub: Bytes, c: Coins)
    requires NextEpoch(s) == U64_SIZE && Begins(p, s, Seal(m, pub, c)) && SealStep(p, s, m, pub, c).1.Ok?
    ensures var f := SealStep(p, s, m, pub, c).1.value;
            f.epoch == 0 && f.index == 0 && f.kam.Some? && |f.nonce| == NONCE_LEN
  {
    hide WrapDmEpochSecret, DeriveDmMessageKey, FrameAad;
  }

  lemma RefusedByKey(p: Primitives, l: Ledger, s: SessionState, f: SealedDmFrame, priv: Bytes, m: Bytes,
      secret: Secret)
    requires Committing(p, l) && Logged(p, l, [Sent(f, m)], [secret]) && f.epoch == 0 && |f.nonce| == NONCE_LEN
    requires 0 in s.secrets && SlotKey(p, secret, f) != SlotKey(p, s.secrets[0], f)
    ensures OpenStep(p, s, f, priv) == (s, Err(OpenFailed))
  {
    hide Decrypt, UnwrapDmEpochSecret, SlotKey;
    assert [Sent(f, m)][0].frame == f;
    KeyDecides(p, l, s.secrets[0], f);
  }

  // -- a run that gets there -------------------------------------------------------------------------

  /** The left side seals, the right side reads it, and then the left side seals `n` more times. */
  function LongRun(a: Coins, b: Coins, n: nat): (es: seq<NetEvent>)
    ensures es != []
    ensures forall i :: 0 <= i < |es| ==> !(es[i].Send? && es[i].side == Right)
  {
    if n == 0 then [Send(Left, [], a), Deliver(Right, 0)] else LongRun(a, b, n - 1) + [Send(Left, [], b)]
  }

  /** A session whose message bound is zero. */
  predicate EverySealBegins(s: SessionState) {
    Coherent(s) && s.msgBound == 0
  }

  lemma NewSealsBegin(s: SessionState)
    requires s == NewSession(s.peer, 0, s.ageBound)
    ensures EverySealBegins(s)
  {
  }

  lemma SealBegins(l: Ledger, s: SessionState, pub: Bytes, c: Coins)
    requires EverySealBegins(s) && |pub| == PUBLIC_KEY_LEN && forall n, b :: (n, b) in l ==> |b| == TAG_LEN
    ensures Begins(Committed(l), s, Seal([], pub, c))
    ensures EverySealBegins(SealStep(Committed(l), s, [], pub, c).0)
  {
    hide FrameAad, MessageSalt, MessageInfo;
    assert |c.secret + Zeros(TAG_LEN)| > TAG_LEN;
    assert WrapDmEpochSecret(Committed(l), c.secret, pub, c.wrap).Ok?;
    SealCoherent(Committed(l), s, [], pub, c);
  }

  /** The left side begins an epoch at every seal, and its first frame has arrived. */
  predicate Underway(n: Net, a: Coins) {
    && EverySealBegins(n.left.session)
    && |n.left.sent| > 0 && IsFirst(n.left.sent[0].frame, a) && 0 in n.right.arrived
  }

  lemma FirstArrives(l: Ledger, ring: Ring, start: Net, a: Coins)
    requires Fresh(start) && start.left.session.msgBound == 0 && |ring.right.pub| == PUBLIC_KEY_LEN
    requires (a.nonce, Zeros(TAG_LEN)) in l && l[(a.nonce, Zeros(TAG_LEN))] == FirstEntry(a)
    requires forall n, x :: (n, x) in l ==> |x| == TAG_LEN
    ensures var p := Committed(l);
            var n := NetStep(p, ring, start, Send(Left, [], a));
            BeginsAt(p, ring, start, Send(Left, [], a), Left) && Underway(NetStep(p, ring, n, Deliver(Right, 0)), a)
  {
    hide SealStep, OpenStep, Begins, IsFirst, Committed, EverySealBegins;
    assert FreshParty(start.At(Left)) && FreshParty(start.At(Right));
    NewSealsBegin(start.left.session);
    SealBegins(l, start.left.session, ring.right.pub, a);
    FirstSeal(l, start.left.session, ring.right.pub, a);
  }

  lemma StaysUnderway(l: Ledger, ring: Ring, n: Net, a: Coins, b: Coins)
    requires Underway(n, a) && |ring.right.pub| == PUBLIC_KEY_LEN && forall n, x :: (n, x) in l ==> |x| == TAG_LEN
    ensures var p := Committed(l);
            BeginsAt(p, ring, n, Send(Left, [], b), Left) && Underway(NetStep(p, ring, n, Send(Left, [], b)), a)
  {
    hide SealStep, Begins, IsFirst, Committed, EverySealBegins;
    SealBegins(l, n.left.session, ring.right.pub, b);
  }

  lemma {:induction false} LongRunBegins(p: Primitives, l: Ledger, ring: Ring, start: Net, a: Coins, b: Coins, n: nat)
    requires Fresh(start) && start.left.session.msgBound == 0 && |ring.right.pub| == PUBLIC_KEY_LEN
    requires p == Committed(l) && forall n, x :: (n, x) in l ==> |x| == TAG_LEN
    requires (a.nonce, Zeros(TAG_LEN)) in l && l[(a.nonce, Zeros(TAG_LEN))] == FirstEntry(a)
    ensures Begun(p, ring, start, LongRun(a, b, n), Left) == 1 + n
    ensures Underway(NetRun(p, ring, start, LongRun(a, b, n)), a)
  {
    hide NetStep, BeginsAt, Committed, FirstEntry, Underway, Fresh, Begun, NetRun, LongRun;
    if n == 0 {
      LongRunStarts(p, ring, start, a, b);
      FirstArrives(l, ring, start, a);
    } else {
      LongRunBegins(p, l, ring, start, a, b, n - 1);
      LongRunGoesOn(p, ring, start, a, b, n);
      StaysUnderway(l, ring, NetRun(p, ring, start, LongRun(a, b, n - 1)), a, b);
    }
  }

  lemma LongRunGoesOn(p: Primitives, ring: Ring, start: Net, a: Coins, b: Coins, n: nat)
    requires n > 0
    ensures var (before, e) := (NetRun(p, ring, start, LongRun(a, b, n - 1)), Send(Left, [], b));
            && NetRun(p, ring, start, LongRun(a, b, n)) == NetStep(p, ring, before, e)
            && Begun(p, ring, start, LongRun(a, b, n), Left)
                 == Begun(p, ring, start, LongRun(a, b, n - 1), Left)
                  + if BeginsAt(p, ring, before, e, Left) then 1 else 0
  {
    hide NetStep, BeginsAt;
    var es := LongRun(a, b, n);
    assert Front(es) == LongRun(a, b, n - 1) && Last(es) == Send(Left, [], b);
  }

  lemma LongRunStarts(p: Primitives, ring: Ring, start: Net, a: Coins, b: Coins)
    ensures var (e, f) := (Send(Left, [], a), Deliver(Right, 0));
            && NetRun(p, ring, start, LongRun(a, b, 0)) == NetStep(p, ring, NetStep(p, ring, start, e), f)
            && Begun(p, ring, start, LongRun(a, b, 0), Left) == if BeginsAt(p, ring, start, e, Left) then 1 else 0
  {
    hide NetStep, BeginsAt;
    var (e, f) := (Send(Left, [], a), Deliver(Right, 0));
    assert LongRun(a, b, 0) == [e, f] && Front([e, f]) == [e] && Front([e]) == [];
    assert NetRun(p, ring, start, [e]) == NetStep(p, ring, start, e);
    DeliveriesDoNotBegin(p, ring, start, [e], f);
  }

  lemma DeliveriesDoNotBegin(p: Primitives, ring: Ring, start: Net, es: seq<NetEvent>, f: NetEvent)
    requires f.Deliver?
    ensures forall d: Side :: !BeginsAt(p, ring, NetRun(p, ring, start, es), f, d)
  {
  }

  lemma EntriesAreShort(a: Coins, b: Coins)
    ensures var l := FirstEntries(a, b);
            && (forall n, x :: (n, x) in l ==> |x| == TAG_LEN)
            && (a.nonce, Zeros(TAG_LEN)) in l && l[(a.nonce, Zeros(TAG_LEN))] == FirstEntry(a)
            && (a.nonce != b.nonce ==>
                 (b.nonce, Zeros(TAG_LEN)) in l && l[(b.nonce, Zeros(TAG_LEN))] == FirstEntry(b))
  {
  }

  /** The seal after 2^64 epochs makes the frame of slot (0, 0) that is in the ledger. */
  lemma WrappedFrame(l: Ledger, s: SessionState, pub: Bytes, c: Coins)
    requires EverySealBegins(s) && NextEpoch(s) == U64_SIZE && |pub| == PUBLIC_KEY_LEN
    requires (c.nonce, Zeros(TAG_LEN)) in l && l[(c.nonce, Zeros(TAG_LEN))] == FirstEntry(c)
    requires forall n, b :: (n, b) in l ==> |b| == TAG_LEN
    ensures SealStep(Committed(l), s, [], pub, c).1.Ok?
    ensures IsFirst(SealStep(Committed(l), s, [], pub, c).1.value, c)
  {
    hide FrameAad, MessageSalt, MessageInfo;
    var p := Committed(l);
    assert p.hkdf == TOY.hkdf;
    assert [] + Zeros(TAG_LEN) == Zeros(TAG_LEN);
    assert |c.secret + Zeros(TAG_LEN)| > TAG_LEN;
    assert WrapDmEpochSecret(p, c.secret, pub, c.wrap).Ok?;
    assert DeriveDmMessageKey(p, c.secret, 0, 0) == DeriveDmMessageKey(TOY, c.secret, 0, 0);
  }

  /** The key that the first frame was recorded under is not the key of the last one's secret. */
  lemma FirstAndLastDiffer(p: Primitives, l: Ledger, x: Party, keys: Keys, own: Secret, a: Coins, b: Coins,
      f: SealedDmFrame)
    requires a.nonce != b.nonce && First(a.secret) != First(b.secret)
    requires l == FirstEntries(a, b) && p == Committed(l)
    requires |x.sent| > 0 && IsFirst(x.sent[0].frame, a) && Genuine(p, keys, x.session, x.sent[0])
    requires Lookup(x.session.secrets, 0) == Some(own) && IsFirst(f, b)
    ensures (f.nonce, f.body) in l && l[(f.nonce, f.body)].key == SlotKey(p, b.secret, f)
    ensures SlotKey(p, b.secret, f) != SlotKey(p, own, f)
  {
    hide FrameAad, UnwrapDmEpochSecret, FirstEntries, Committed, MessageSalt, MessageInfo;
    EntriesAreShort(a, b);
    CommittedInstance(l);
    ToyKeysDiffer(a.secret, b.secret);
    assert p.hkdf == TOY.hkdf by { KeepsHkdf(l); }
    var g := x.sent[0].frame;
    assert p.open(SlotKey(p, own, g), g.nonce, g.body, FrameAad(0, 0)).Some?;
  }

  lemma KeepsHkdf(l: Ledger)
    ensures Committed(l).hkdf == TOY.hkdf
  {
  }

  lemma SingleLogged(p: Primitives, l: Ledger, x: Sent, secret: Secret, own: seq<Secret>)
    requires var f := x.frame;
             && f.epoch == 0 && own != [] && (f.nonce, f.body) in l
             && l[(f.nonce, f.body)].key == SlotKey(p, secret, f) != SlotKey(p, own[0], f)
    ensures Logged(p, l, [x], [secret]) && Separated(p, [x], [secret], own)
  {
  }

  /** So there is a run, with one side only sending, after which a frame with its KAM is refused. */
  lemma DeliveryDoesEnd(ring: Ring, start: Net, a: Coins, b: Coins)
    requires KeysFit(TOY, ring) && Fresh(start) && start.left.session.msgBound == 0
    requires a.nonce != b.nonce && First(a.secret) != First(b.secret)
    ensures var p := Committed(FirstEntries(a, b));
            var n := NetRun(p, ring, start, LongRun(a, b, U64_SIZE - 1));
            var r := SealStep(p, n.left.session, [], ring.right.pub, b).1;
            && r.Ok? && r.value.kam.Some?
            && OpenStep(p, n.right.session, r.value, ring.right.priv) == (n.right.session, Err(OpenFailed))
  {
    hide NetRun, SealStep, OpenStep, OwnOf, Begins, Begun, Committed, FirstEntries, MessageSalt, MessageInfo, FrameAad;
    hide NetInvariant, EverySealBegins, NextEpoch, LongRun;
    var l := FirstEntries(a, b);
    var (p, es) := (Committed(l), LongRun(a, b, U64_SIZE - 1));
    var n := NetRun(p, ring, start, es);
    EntriesAreShort(a, b);
    CommittedInstance(l);
    ToyKeys(l, ring);
    assert |ring.Of(Right).pub| == PUBLIC_KEY_LEN;
    LongRunBegins(p, l, ring, start, a, b, U64_SIZE - 1);
    forall d: Side ensures Begun(p, ring, start, es, d) <= U64_SIZE {
      assert d == Left || d == Right;
    }
    InvariantHolds(p, ring, start, es);
    WrappedFrame(l, n.left.session, ring.right.pub, b);
    var f := SealStep(p, n.left.session, [], ring.right.pub, b).1.value;
    assert BeginsAt(p, ring, n, Send(Left, [], b), Left) by {
      SealBegins(l, n.left.session, ring.right.pub, b);
    }
    BothSides(p, ring, n, Left);
    SentIsGenuine(p, ring.right, n.left, 0);
    OwnSecretsHeld(p, ring, start, es, Left, 0);
    var own := OwnOf(p, ring, start, es, Left);
    FirstAndLastDiffer(p, l, n.left, ring.right, own[0], a, b, f);
    SingleLogged(p, l, Sent(f, []), b.secret, own);
    assert Announced(n.left.sent, n.right.arrived, 0);
    DeliveryEndsAtWrap(p, l, ring, start, es, Right, [], b, f);
  }
}
