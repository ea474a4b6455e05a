/** One session used for sending and receiving at once: what its shared secret store holds. */
module DmMixed {
  import opened Basics
  import opened Crypto
  import opened Ratchet
  import opened DmState

  /** The secrets drawn for the epochs begun along a run, in order. */
  function Own(p: Primitives, s: SessionState, es: seq<Event>): (own: seq<Secret>)
    ensures |own| == BeginCount(p, s, es)
  {
    if es == [] then []
    else
      Own(p, s, Front(es))
      + (if Begins(p, Run(p, s, Front(es)), Last(es)) then [Last(es).coins.secret] else [])
  }

  /** The secret of the epoch begun last under that number; a number comes back after 2^64 epochs. */
  function LatestOwn(own: seq<Secret>, epoch: U64): (r: Option<Secret>)
    ensures r.Some? <==> epoch < |own|
    ensures |own| <= U64_SIZE && epoch < |own| ==> r == Some(own[epoch])
  {
    if own == [] then None
    else if (|own| - 1) % U64_SIZE == epoch then Some(Last(own))
    else LatestOwn(Front(own), epoch)
  }

  /** What an opened frame's key-agreement message unwraps to. */
  function Offer(p: Primitives, e: Event, epoch: U64): Option<Secret> {
    if e.Open? && e.frame.epoch == epoch && e.frame.kam.Some? then
      match UnwrapDmEpochSecret(p, e.frame.kam.value, e.priv)
      case Err(_) => None
      case Ok(secret) => Some(secret)
    else None
  }

  /** The first valid key-agreement message for `epoch` among the frames opened in `es`. */
  function FirstOffer(p: Primitives, es: seq<Event>, epoch: U64): Option<Secret> {
    if es == [] then None
    else
      var earlier := FirstOffer(p, Front(es), epoch);
      if earlier.Some? then earlier else Offer(p, Last(es), epoch)
  }

  function Lookup(m: map<U64, Secret>, epoch: U64): Option<Secret> {
    if epoch in m then Some(m[epoch]) else None
  }

  /** What the store should hold for `epoch`: own epochs first, then the first valid offer. */
  function Holds(p: Primitives, s: SessionState, es: seq<Event>, epoch: U64): Option<Secret> {
    var own := LatestOwn(Own(p, s, es), epoch);
    if own.Some? then own else FirstOffer(p, es, epoch)
  }

  /** The store by the trace alone: own secrets for the begun epochs, else the first valid offer. */
  lemma {:induction false} StoreHistory(p: Primitives, peer: string, msgBound: U64, ageBound: U64,
      es: seq<Event>, epoch: U64)
    ensures var s := NewSession(peer, msgBound, ageBound);
            Lookup(Run(p, s, es).secrets, epoch) == Holds(p, s, es, epoch)
  {
    hide Coherent, Step, Begins, Offer, LatestOwn, NextEpoch, Lookup;
    var s := NewSession(peer, msgBound, ageBound);
    if es != [] {
      var t := Run(p, s, Front(es));
      StoreHistory(p, peer, msgBound, ageBound, Front(es), epoch);
      StepStore(p, t, Last(es), epoch);
      NextIsOwnCount(p, peer, msgBound, ageBound, Front(es));
      if Begins(p, t, Last(es)) {
        BeginningOffersNothing(p, t, Last(es), epoch);
        LatestOfMore(Own(p, s, Front(es)), Last(es).coins.secret, epoch);
      } else {
        assert Own(p, s, es) == Own(p, s, Front(es));
      }
      KnownIsLookup(t, epoch);
    } else {
      KnownIsLookup(s, epoch);
    }
  }

  lemma KnownIsLookup(t: SessionState, epoch: U64)
    ensures epoch in t.secrets <==> Lookup(t.secrets, epoch).Some?
  {
  }

  lemma NextIsOwnCount(p: Primitives, peer: string, msgBound: U64, ageBound: U64, es: seq<Event>)
    ensures var s := NewSession(peer, msgBound, ageBound);
            NextEpoch(Run(p, s, es)) % U64_SIZE == |Own(p, s, es)| % U64_SIZE
  {
    hide Coherent, Run, Numbered, Own, BeginCount;
    var s := NewSession(peer, msgBound, ageBound);
    var n := |Own(p, s, es)|;
    assert NextEpoch(s) == 0 && n == BeginCount(p, s, es);
    assert NextEpoch(Run(p, s, es)) == Numbered(n) by {
      NewCoherent(peer, msgBound, ageBound);
      NextEpochCounts(p, s, es);
    }
    NumberedIsCount(n);
  }

  lemma LatestOfMore(own: seq<Secret>, secret: Secret, epoch: U64)
    ensures LatestOwn(own + [secret], epoch)
         == if |own| % U64_SIZE == epoch then Some(secret) else LatestOwn(own, epoch)
  {
    assert Front(own + [secret]) == own;
  }

  lemma BeginningOffersNothing(p: Primitives, t: SessionState, e: Event, epoch: U64)
    requires Begins(p, t, e)
    ensures e.Seal? && Offer(p, e, epoch).None?
  {
  }

  /** How one event changes one entry of the store. */
  lemma StepStore(p: Primitives, t: SessionState, e: Event, epoch: U64)
    ensures var u := Step(p, t, e);
            Lookup(u.secrets, epoch) ==
              if Begins(p, t, e) then
                (if epoch == NextEpoch(t) % U64_SIZE then Some(e.coins.secret) else Lookup(t.secrets, epoch))
              else if epoch in t.secrets then Lookup(t.secrets, epoch)
              else Offer(p, e, epoch)
  {
    hide SealStep, OpenStep;
    match e
    case Seal(m, pub, c) => SealStored(p, t, m, pub, c);
    case Open(f, priv) => OpenStored(p, t, f, priv, epoch);
  }

  /** A seal begins an epoch, with its number and secret, or leaves store, epoch and secret alone. */
  lemma SealStored(p: Primitives, t: SessionState, m: Bytes, pub: Bytes, c: Coins)
    ensures var (u, e) := (SealStep(p, t, m, pub, c).0, NextEpoch(t) % U64_SIZE);
            if Begins(p, t, Seal(m, pub, c)) then
              && u.secrets == t.secrets[e := c.secret]
              && u.ratchet.Some? && u.ratchet.value.epoch == e && u.ratchet.value.secret == c.secret
            else u.secrets == t.secrets && SameEpoch(t.ratchet, u.ratchet)
  {
    hide WrapDmEpochSecret, DeriveDmMessageKey, FrameAad;
  }

  predicate SameEpoch(r: Option<RatchetState>, u: Option<RatchetState>) {
    match (r, u)
    case (None, None) => true
    case (Some(x), Some(y)) => x.epoch == y.epoch && x.secret == y.secret
    case _ => false
  }

  lemma OpenStored(p: Primitives, t: SessionState, f: SealedDmFrame, priv: Bytes, epoch: U64)
    ensures var u := OpenStep(p, t, f, priv).0;
            && u.ratchet == t.ratchet
            && Lookup(u.secrets, epoch) ==
                 if epoch in t.secrets then Lookup(t.secrets, epoch) else Offer(p, Open(f, priv), epoch)
  {
    hide UnwrapDmEpochSecret, Decrypt;
  }

  /** The ratchet is at the epoch begun last, under its number and secret. */
  lemma {:induction false} OwnEpochs(p: Primitives, peer: string, msgBound: U64, ageBound: U64, es: seq<Event>)
    ensures var s := NewSession(peer, msgBound, ageBound);
            var (r, own) := (Run(p, s, es).ratchet, Own(p, s, es));
            && (r.None? <==> own == [])
            && (r.Some? ==> r.value.epoch == (|own| - 1) % U64_SIZE && r.value.secret == Last(own))
  {
    hide Coherent, Step, Begins, NextEpoch;
    var s := NewSession(peer, msgBound, ageBound);
    if es != [] {
      var (t, own) := (Run(p, s, Front(es)), Own(p, s, Front(es)));
      OwnEpochs(p, peer, msgBound, ageBound, Front(es));
      StepRatchet(p, t, Last(es));
      if Begins(p, t, Last(es)) {
        BeginningOffersNothing(p, t, Last(es), 0);
        NextIsOwnCount(p, peer, msgBound, ageBound, Front(es));
        assert Own(p, s, es) == own + [Last(es).coins.secret];
        assert |Own(p, s, es)| - 1 == |own|;
      } else {
        assert Own(p, s, es) == own;
      }
    }
  }

  /** One event either begins an epoch or keeps epoch and secret of the ratchet. */
  lemma StepRatchet(p: Primitives, t: SessionState, e: Event)
    ensures var (r, u) := (t.ratchet, Step(p, t, e).ratchet);
            if Begins(p, t, e) then
              u.Some? && u.value.epoch == NextEpoch(t) % U64_SIZE && u.value.secret == e.coins.secret
            else SameEpoch(r, u)
  {
    hide SealStep, OpenStep, Prepare, NextEpoch, Offer, Lookup;
    match e
    case Seal(m, pub, c) => SealStored(p, t, m, pub, c);
    case Open(f, priv) => OpenStored(p, t, f, priv, f.epoch);
  }

  /** How an inbound frame is decided after any interleaving: by the own secret exactly when its
      epoch was begun locally, ignoring its KAM; otherwise by the first valid offer, its own included. */
  lemma InboundDecision(p: Primitives, peer: string, msgBound: U64, ageBound: U64, es: seq<Event>,
      f: SealedDmFrame, priv: Bytes)
    ensures var s := NewSession(peer, msgBound, ageBound);
            var (t, own) := (Run(p, s, es), Own(p, s, es));
            var (heard, offer) := (FirstOffer(p, es, f.epoch), Offer(p, Open(f, priv), f.epoch));
            OpenStep(p, t, f, priv) ==
              if f.epoch < |own| then (t, Decrypt(p, LatestOwn(own, f.epoch).value, f))
              else if heard.Some? then (t, Decrypt(p, heard.value, f))
              else if offer.Some? then
                (t.(secrets := t.secrets[f.epoch := offer.value]), Decrypt(p, offer.value, f))
              else if f.kam.Some? then (t, Err(RatchetFailed(UnwrapDmEpochSecret(p, f.kam.value, priv).error)))
              else (t, Err(MissingEpochSecret(f.epoch)))
  {
    hide UnwrapDmEpochSecret, Decrypt, Run, Own, FirstOffer, LatestOwn;
    StoreHistory(p, peer, msgBound, ageBound, es, f.epoch);
  }
}
