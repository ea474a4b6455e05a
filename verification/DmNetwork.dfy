/** Delivery between two sessions, each of which may send, over a network that loses, reorders
    and repeats frames. */
module DmNetwork {
  import opened Basics
  import opened Crypto
  import opened Ratchet
  import opened DmState
  import opened DmMixed
  import opened DmToken
  import opened DmNonce

  datatype Side = Left | Right

  function Other(d: Side): Side {
    if d == Left then Right else Left
  }

  datatype Keys = Keys(pub: Bytes, priv: Bytes)

  /** The key pair of each side. */
  datatype Ring = Ring(left: Keys, right: Keys) {
    function Of(d: Side): Keys {
      if d == Left then left else right
    }
  }

  datatype Sent = Sent(frame: SealedDmFrame, plaintext: Bytes)

  /** A session, what it ever sent, and which frames of the other side have been delivered to it. */
  datatype Party = Party(session: SessionState, sent: seq<Sent>, arrived: set<nat>)

  datatype Net = Net(left: Party, right: Party) {
    function At(d: Side): Party {
      if d == Left then left else right
    }

    function With(d: Side, x: Party): Net {
      if d == Left then this.(left := x) else this.(right := x)
    }
  }

  /** Everything ever sent stays deliverable: never, twice, or late is a choice of events. */
  datatype NetEvent =
    | Send(side: Side, plaintext: Bytes, coins: Coins)
    | Deliver(to: Side, k: nat)

  function Posted(p: Primitives, pub: Bytes, x: Party, m: Bytes, c: Coins): Party {
    var (after, r) := SealStep(p, x.session, m, pub, c);
    x.(session := after, sent := x.sent + if r.Ok? then [Sent(r.value, m)] else [])
  }

  function Received(p: Primitives, priv: Bytes, x: Party, mail: seq<Sent>, k: nat): Party
    requires k < |mail|
  {
    x.(session := OpenStep(p, x.session, mail[k].frame, priv).0, arrived := x.arrived + {k})
  }

  /** Either side seals to the other's public key and opens with its own private key. */
  function NetStep(p: Primitives, ring: Ring, n: Net, e: NetEvent): Net {
    match e
    case Send(side, m, c) => n.With(side, Posted(p, ring.Of(Other(side)).pub, n.At(side), m, c))
    case Deliver(to, k) =>
      var mail := n.At(Other(to)).sent;
      if k < |mail| then n.With(to, Received(p, ring.Of(to).priv, n.At(to), mail, k)) else n
  }

  function NetRun(p: Primitives, ring: Ring, n: Net, es: seq<NetEvent>): Net {
    if es == [] then n else NetStep(p, ring, NetRun(p, ring, n, Front(es)), Last(es))
  }

  /** The event makes that side begin an epoch. */
  predicate BeginsAt(p: Primitives, ring: Ring, n: Net, e: NetEvent, d: Side) {
    e.Send? && e.side == d && Begins(p, n.At(d).session, Seal(e.plaintext, ring.Of(Other(d)).pub, e.coins))
  }

  /** How many epochs that side begins along a run. */
  function Begun(p: Primitives, ring: Ring, n: Net, es: seq<NetEvent>, d: Side): (count: nat)
    ensures count <= |es|
    ensures (forall i :: 0 <= i < |es| ==> !(es[i].Send? && es[i].side == d)) ==> count == 0
  {
    if es == [] then 0
    else
      Begun(p, ring, n, Front(es), d) + if BeginsAt(p, ring, NetRun(p, ring, n, Front(es)), Last(es), d) then 1 else 0
  }

  /** Two new sessions, each with its own peer name and rekey bounds. */
  predicate Fresh(n: Net) {
    forall d: Side :: FreshParty(n.At(d))
  }

  predicate FreshParty(x: Party) {
    x == Party(NewSession(x.session.peer, x.session.msgBound, x.session.ageBound), [], {})
  }

  // -- the invariant ---------------------------------------------------------------------------------

  /** Some delivered frame of the epoch carried a key-agreement message. */
  ghost predicate Announced(mail: seq<Sent>, arrived: set<nat>, epoch: U64) {
    exists k :: k in arrived && k < |mail| && mail[k].frame.epoch == epoch && mail[k].frame.kam.Some?
  }

  /** The frame is sealed under the secret of an epoch that the session has begun, and so is its KAM. */
  ghost predicate Genuine(p: Primitives, keys: Keys, s: SessionState, x: Sent) {
    && x.frame.epoch < NextEpoch(s) && x.frame.epoch in s.secrets
    && Decrypt(p, s.secrets[x.frame.epoch], x.frame) == Ok(x.plaintext)
    && |x.frame.body| == |x.plaintext| + TAG_LEN
    && (x.frame.kam.Some? ==>
         UnwrapDmEpochSecret(p, x.frame.kam.value, keys.priv) == Ok(s.secrets[x.frame.epoch]))
  }

  /** The session holds all its own epochs, and its KAM wraps the current secret. */
  ghost predicate Ready(p: Primitives, keys: Keys, s: SessionState) {
    && Coherent(s)
    && (forall epoch: U64 :: epoch < NextEpoch(s) ==> epoch in s.secrets)
    && (s.ratchet.Some? ==> UnwrapDmEpochSecret(p, s.kam.value, keys.priv) == Ok(s.ratchet.value.secret))
  }

  ghost predicate Outgoing(p: Primitives, keys: Keys, x: Party) {
    && Ready(p, keys, x.session)
    && (forall k :: 0 <= k < |x.sent| ==> Genuine(p, keys, x.session, x.sent[k]))
  }

  /** Beyond its own epochs the receiver knows exactly the announced ones, by the sender's secrets. */
  ghost predicate Incoming(from: Party, to: Party) {
    && (forall k :: k in to.arrived ==> k < |from.sent|)
    && (forall epoch: U64 :: Announced(from.sent, to.arrived, epoch) ==> epoch in to.session.secrets)
    && (forall epoch: U64 :: epoch in to.session.secrets && epoch >= NextEpoch(to.session) ==>
         Announced(from.sent, to.arrived, epoch) && Shares(from.session, to.session, epoch))
  }

  /** The receiver's secret of the epoch is the one the sender began it with. */
  predicate Shares(from: SessionState, to: SessionState, epoch: U64) {
    && epoch < NextEpoch(from)
    && epoch in from.secrets && epoch in to.secrets && to.secrets[epoch] == from.secrets[epoch]
  }

  ghost predicate NetInvariant(p: Primitives, ring: Ring, n: Net) {
    forall d: Side :: Outgoing(p, ring.Of(Other(d)), n.At(d)) && Incoming(n.At(d), n.At(Other(d)))
  }

  // -- one session -----------------------------------------------------------------------------------

  /** The secrets of begun epochs stay, and none that was known is lost. */
  ghost predicate Extends(s: SessionState, t: SessionState) {
    && NextEpoch(s) <= NextEpoch(t)
    && (forall epoch :: epoch in s.secrets ==> epoch in t.secrets)
    && (forall epoch :: epoch in s.secrets && epoch < NextEpoch(s) ==> t.secrets[epoch] == s.secrets[epoch])
  }

  /** A seal makes a genuine frame and touches no secret but that of the epoch it begins. */
  lemma SealKeeps(p: Primitives, keys: Keys, s: SessionState, m: Bytes, c: Coins)
    requires Correct(p) && KeyPair(p, keys.pub, keys.priv) && Ready(p, keys, s)
    requires Begins(p, s, Seal(m, keys.pub, c)) ==> NextEpoch(s) < U64_SIZE
    ensures var (t, r) := SealStep(p, s, m, keys.pub, c);
            && Ready(p, keys, t) && Extends(s, t)
            && (forall epoch :: epoch in t.secrets && epoch >= NextEpoch(t) ==>
                 epoch in s.secrets && s.secrets[epoch] == t.secrets[epoch])
            && (r.Ok? ==> Genuine(p, keys, t, Sent(r.value, m)))
  {
    hide WrapDmEpochSecret, UnwrapDmEpochSecret, DeriveDmMessageKey, FrameAad;
    SealCoherent(p, s, m, keys.pub, c);
    WrapUnwrap(p, c.secret, keys.pub, keys.priv, c.wrap);
  }

  /** An open learns at most the secret of the frame's epoch and leaves the sending half alone. */
  lemma OpenKeeps(p: Primitives, keys: Keys, s: SessionState, f: SealedDmFrame, priv: Bytes)
    requires Ready(p, keys, s)
    ensures var t := OpenStep(p, s, f, priv).0;
            Ready(p, keys, t) && Extends(s, t) && NextEpoch(t) == NextEpoch(s)
  {
    hide UnwrapDmEpochSecret, Decrypt;
  }

  /** One delivery of a genuine frame, first or repeated, case by case. */
  lemma GenuineOpens(p: Primitives, keys: Keys, from: SessionState, to: SessionState, x: Sent)
    requires Genuine(p, keys, from, x)
    requires x.frame.epoch in to.secrets && x.frame.epoch >= NextEpoch(to) ==> Shares(from, to, x.frame.epoch)
    ensures var (t, out) := OpenStep(p, to, x.frame, keys.priv);
            var epoch := x.frame.epoch;
            if epoch in to.secrets then
              && t == to && out == Decrypt(p, to.secrets[epoch], x.frame)
              && (epoch >= NextEpoch(to) ==> out == Ok(x.plaintext))
            else if x.frame.kam.Some? then
              t == to.(secrets := to.secrets[epoch := from.secrets[epoch]]) && out == Ok(x.plaintext)
            else t == to && out == Err(MissingEpochSecret(epoch))
  {
    hide UnwrapDmEpochSecret, Decrypt;
  }

  // -- one step --------------------------------------------------------------------------------------

  lemma SentStaysGenuine(p: Primitives, keys: Keys, x: Party, y: Party)
    requires Outgoing(p, keys, x) && Extends(x.session, y.session) && x.sent <= y.sent
    ensures forall k :: 0 <= k < |x.sent| ==> Genuine(p, keys, y.session, y.sent[k])
  {
    hide Decrypt, UnwrapDmEpochSecret, Ready;
    forall k | 0 <= k < |x.sent| ensures Genuine(p, keys, y.session, y.sent[k]) {
      assert Genuine(p, keys, x.session, x.sent[k]) && y.sent[k] == x.sent[k];
    }
  }

  /** New frames of the sender change nothing for its receiver. */
  lemma MoreSent(from: Party, to: Party, after: Party)
    requires Incoming(from, to) && Extends(from.session, after.session) && from.sent <= after.sent
    ensures Incoming(after, to)
  {
    forall epoch: U64
      ensures Announced(after.sent, to.arrived, epoch) <==> Announced(from.sent, to.arrived, epoch)
    {
      assert forall k :: k in to.arrived ==> after.sent[k] == from.sent[k];
    }
  }

  /** Nor does a receiver's own new epoch. */
  lemma OwnEpochBegins(from: Party, to: Party, after: Party)
    requires Incoming(from, to) && Extends(to.session, after.session) && after.arrived == to.arrived
    requires forall epoch :: epoch in after.session.secrets && epoch >= NextEpoch(after.session) ==>
      epoch in to.session.secrets && to.session.secrets[epoch] == after.session.secrets[epoch]
    ensures Incoming(from, after)
  {
    hide Announced;
  }

  /** A delivered frame announces its epoch at most, and that by the sender's secret. */
  lemma MoreArrived(p: Primitives, keys: Keys, from: Party, to: Party, after: Party, k: nat)
    requires Incoming(from, to) && k < |from.sent| && Genuine(p, keys, from.session, from.sent[k])
    requires after.session == OpenStep(p, to.session, from.sent[k].frame, keys.priv).0
    requires after.arrived == to.arrived + {k} && NextEpoch(after.session) == NextEpoch(to.session)
    ensures Incoming(from, after)
  {
    hide OpenStep, NextEpoch, Decrypt, UnwrapDmEpochSecret;
    var x := from.sent[k];
    GenuineOpens(p, keys, from.session, to.session, x);
    forall epoch: U64
      ensures Announced(from.sent, after.arrived, epoch) <==>
        Announced(from.sent, to.arrived, epoch) || (x.frame.epoch == epoch && x.frame.kam.Some?)
    {
      if x.frame.epoch == epoch && x.frame.kam.Some? {
        assert k in after.arrived;
      }
      if Announced(from.sent, to.arrived, epoch) {
        var j :| j in to.arrived && j < |from.sent| && from.sent[j].frame.epoch == epoch
          && from.sent[j].frame.kam.Some?;
        assert j in after.arrived;
      }
    }
  }

  /** A party that sends, as the sender that it is and as a receiver. */
  lemma PostedKeeps(p: Primitives, keys: Keys, me: Party, you: Party, m: Bytes, c: Coins)
    requires Correct(p) && KeyPair(p, keys.pub, keys.priv)
    requires Outgoing(p, keys, me) && Incoming(me, you) && Incoming(you, me)
    requires Begins(p, me.session, Seal(m, keys.pub, c)) ==> NextEpoch(me.session) < U64_SIZE
    ensures var after := Posted(p, keys.pub, me, m, c);
            Outgoing(p, keys, after) && Incoming(after, you) && Incoming(you, after)
  {
    hide SealStep, Ready, Genuine, Begins, Incoming, Extends, NextEpoch;
    SealKeeps(p, keys, me.session, m, c);
    var after := Posted(p, keys.pub, me, m, c);
    SentStaysGenuine(p, keys, me, after);
    MoreSent(me, you, after);
    OwnEpochBegins(you, me, after);
  }

  /** A party that a frame is delivered to. */
  lemma ReceivedKeeps(p: Primitives, mine: Keys, yours: Keys, me: Party, you: Party, k: nat)
    requires Outgoing(p, yours, me) && Outgoing(p, mine, you) && Incoming(me, you) && Incoming(you, me)
    requires k < |you.sent|
    ensures var after := Received(p, mine.priv, me, you.sent, k);
            Outgoing(p, yours, after) && Incoming(after, you) && Incoming(you, after)
  {
    hide OpenStep, Ready, Genuine, Incoming, Extends, NextEpoch;
    OpenKeeps(p, yours, me.session, you.sent[k].frame, mine.priv);
    var after := Received(p, mine.priv, me, you.sent, k);
    SentStaysGenuine(p, yours, me, after);
    MoreSent(me, you, after);
    MoreArrived(p, mine, you, me, after, k);
  }

  lemma BothSides(p: Primitives, ring: Ring, n: Net, side: Side)
    ensures NetInvariant(p, ring, n) <==>
      && Outgoing(p, ring.Of(Other(side)), n.At(side)) && Incoming(n.At(side), n.At(Other(side)))
      && Outgoing(p, ring.Of(side), n.At(Other(side))) && Incoming(n.At(Other(side)), n.At(side))
  {
    hide Outgoing, Incoming;
    assert Other(Other(side)) == side;
  }

  lemma NetStepKeeps(p: Primitives, ring: Ring, n: Net, e: NetEvent)
    requires Correct(p) && KeysFit(p, ring) && NetInvariant(p, ring, n)
    requires forall d: Side :: BeginsAt(p, ring, n, e, d) ==> NextEpoch(n.At(d).session) < U64_SIZE
    ensures NetInvariant(p, ring, NetStep(p, ring, n, e))
  {
    hide NetInvariant, Outgoing, Incoming, Posted, Received, Begins, NextEpoch;
    var side := if e.Send? then e.side else e.to;
    BothSides(p, ring, n, side);
    BothSides(p, ring, NetStep(p, ring, n, e), side);
    match e
    case Send(_, m, c) =>
      assert BeginsAt(p, ring, n, e, side) == Begins(p, n.At(side).session, Seal(m, ring.Of(Other(side)).pub, c));
      PostedKeeps(p, ring.Of(Other(side)), n.At(side), n.At(Other(side)), m, c);
    case Deliver(_, k) =>
      if k < |n.At(Other(side)).sent| {
        ReceivedKeeps(p, ring.Of(side), ring.Of(Other(side)), n.At(side), n.At(Other(side)), k);
      }
  }

  lemma EpochsCounted(p: Primitives, ring: Ring, n: Net, e: NetEvent, d: Side)
    requires Coherent(n.At(d).session)
    requires BeginsAt(p, ring, n, e, d) ==> NextEpoch(n.At(d).session) < U64_SIZE
    ensures NextEpoch(NetStep(p, ring, n, e).At(d).session)
         == NextEpoch(n.At(d).session) + if BeginsAt(p, ring, n, e, d) then 1 else 0
  {
    hide SealStep, OpenStep, Begins, NextEpoch, Coherent;
    var s := n.At(d).session;
    match e
    case Send(side, m, c) =>
      if side == d {
        SealCoherent(p, s, m, ring.Of(Other(d)).pub, c);
        NumberBound(s);
      }
    case Deliver(to, k) =>
      if to == d && k < |n.At(Other(d)).sent| {
        var f := n.At(Other(d)).sent[k].frame;
        OpenCoherent(p, s, f, ring.Of(d).priv);
        SameRatchetSameEpoch(s, OpenStep(p, s, f, ring.Of(d).priv).0);
      }
  }

  lemma NumberBound(s: SessionState)
    ensures NextEpoch(s) < U64_SIZE ==> NextEpoch(s) % U64_SIZE == NextEpoch(s)
  {
  }

  lemma SameRatchetSameEpoch(s: SessionState, t: SessionState)
    requires s.ratchet == t.ratchet
    ensures NextEpoch(s) == NextEpoch(t)
  {
  }

  // -- every run -------------------------------------------------------------------------------------

  ghost predicate KeysFit(p: Primitives, ring: Ring) {
    forall d: Side :: KeyPair(p, ring.Of(d).pub, ring.Of(d).priv)
  }

  /** Neither side begins more epochs than there are numbers for them. */
  predicate NumbersLast(p: Primitives, ring: Ring, start: Net, es: seq<NetEvent>) {
    forall d: Side :: Begun(p, ring, start, es, d) <= U64_SIZE
  }

  lemma {:induction false} InvariantHolds(p: Primitives, ring: Ring, start: Net, es: seq<NetEvent>)
    requires Correct(p) && KeysFit(p, ring) && Fresh(start) && NumbersLast(p, ring, start, es)
    ensures NetInvariant(p, ring, NetRun(p, ring, start, es))
    ensures forall d: Side :: NextEpoch(NetRun(p, ring, start, es).At(d).session) == Begun(p, ring, start, es, d)
  {
    hide NetInvariant, NetStep, BeginsAt, NextEpoch;
    if es == [] {
      InvariantAtStart(p, ring, start);
    } else {
      var n := NetRun(p, ring, start, Front(es));
      assert NumbersLast(p, ring, start, Front(es)) by {
        assert forall d: Side :: Begun(p, ring, start, Front(es), d) <= Begun(p, ring, start, es, d);
      }
      InvariantHolds(p, ring, start, Front(es));
      forall d: Side
        ensures NextEpoch(NetRun(p, ring, start, es).At(d).session) == Begun(p, ring, start, es, d)
        ensures BeginsAt(p, ring, n, Last(es), d) ==> NextEpoch(n.At(d).session) < U64_SIZE
      {
        assert Begun(p, ring, start, es, d) <= U64_SIZE;
        assert Outgoing(p, ring.Of(Other(d)), n.At(d)) by { BothSides(p, ring, n, d); }
        EpochsCounted(p, ring, n, Last(es), d);
      }
      NetStepKeeps(p, ring, n, Last(es));
    }
  }

  lemma InvariantAtStart(p: Primitives, ring: Ring, n: Net)
    requires Fresh(n)
    ensures NetInvariant(p, ring, n) && forall d: Side :: NextEpoch(n.At(d).session) == 0
  {
    assert forall d: Side :: FreshParty(n.At(d));
  }

  // -- each side by itself ---------------------------------------------------------------------------

  /** The calls that one side's session sees in a run of the network. */
  function Trace(p: Primitives, ring: Ring, n: Net, es: seq<NetEvent>, d: Side): seq<Event> {
    if es == [] then []
    else Trace(p, ring, n, Front(es), d) + Calls(ring, NetRun(p, ring, n, Front(es)), Last(es), d)
  }

  function Calls(ring: Ring, n: Net, e: NetEvent, d: Side): seq<Event> {
    match e
    case Send(side, m, c) => if side == d then [Seal(m, ring.Of(Other(d)).pub, c)] else []
    case Deliver(to, k) =>
      var mail := n.At(Other(d)).sent;
      if to == d && k < |mail| then [Open(mail[k].frame, ring.Of(d).priv)] else []
  }

  lemma CallsAct(p: Primitives, ring: Ring, n: Net, e: NetEvent, d: Side)
    ensures var (calls, s, t) := (Calls(ring, n, e, d), n.At(d).session, NetStep(p, ring, n, e).At(d).session);
            if calls == [] then t == s && !BeginsAt(p, ring, n, e, d)
            else |calls| == 1 && t == Step(p, s, calls[0]) && (BeginsAt(p, ring, n, e, d) <==> Begins(p, s, calls[0]))
  {
    hide SealStep, OpenStep, Prepare;
  }

  /** Each side is a run of one session, so whatever holds of those holds of it. */
  lemma {:induction false} EachSideRuns(p: Primitives, ring: Ring, start: Net, es: seq<NetEvent>, d: Side)
    ensures var (s, trace) := (start.At(d).session, Trace(p, ring, start, es, d));
            && NetRun(p, ring, start, es).At(d).session == Run(p, s, trace)
            && Begun(p, ring, start, es, d) == BeginCount(p, s, trace)
  {
    hide NetStep, Calls, Step, BeginsAt, Begins;
    if es != [] {
      EachSideRuns(p, ring, start, Front(es), d);
      var n := NetRun(p, ring, start, Front(es));
      var (before, calls) := (Trace(p, ring, start, Front(es), d), Calls(ring, n, Last(es), d));
      CallsAct(p, ring, n, Last(es), d);
      assert Trace(p, ring, start, es, d) == before + calls;
      if calls == [] {
        assert before + calls == before;
      } else {
        assert Front(before + calls) == before && Last(before + calls) == calls[0];
      }
    }
  }

  /** The secrets that side drew, epoch by epoch. */
  function OwnOf(p: Primitives, ring: Ring, start: Net, es: seq<NetEvent>, d: Side): (own: seq<Secret>)
  {
    Own(p, start.At(d).session, Trace(p, ring, start, es, d))
  }

  lemma OwnSecretsHeld(p: Primitives, ring: Ring, start: Net, es: seq<NetEvent>, d: Side, epoch: U64)
    requires Fresh(start) && Begun(p, ring, start, es, d) <= U64_SIZE
    ensures var own := OwnOf(p, ring, start, es, d);
            && |own| == Begun(p, ring, start, es, d)
            && (epoch < |own| ==> Lookup(NetRun(p, ring, start, es).At(d).session.secrets, epoch) == Some(own[epoch]))
  {
    hide Run, NetRun, Trace, LatestOwn;
    EachSideRuns(p, ring, start, es, d);
    var x := start.At(d);
    assert FreshParty(x);
    StoreHistory(p, x.session.peer, x.session.msgBound, x.session.ageBound, Trace(p, ring, start, es, d), epoch);
  }

  // -- delivery --------------------------------------------------------------------------------------

  lemma Decided(p: Primitives, keys: Keys, you: Party, me: Party, k: nat)
    requires Incoming(you, me) && k < |you.sent| && Genuine(p, keys, you.session, you.sent[k])
    ensures var (f, m) := (you.sent[k].frame, you.sent[k].plaintext);
            var (after, out) := OpenStep(p, me.session, f, keys.priv);
            if f.epoch in me.session.secrets && f.epoch < NextEpoch(me.session) then
              after == me.session && out == Decrypt(p, me.session.secrets[f.epoch], f)
            else
              && (out == Ok(m) <==> f.kam.Some? || Announced(you.sent, me.arrived, f.epoch))
              && (out != Ok(m) ==> out == Err(MissingEpochSecret(f.epoch)) && after == me.session)
  {
    hide OpenStep, Genuine, Announced, NextEpoch, Decrypt;
    GenuineOpens(p, keys, you.session, me.session, you.sent[k]);
  }

  /** After any run, what any frame sent by one side does at the other, first-time or repeated. In
      an epoch the receiver has begun itself, its own secret decides. In any other the frame opens
      to its plaintext exactly when it carries a KAM or a KAM frame of its epoch has arrived;
      otherwise it is refused as missing its epoch secret and changes nothing. */
  lemma Delivery(p: Primitives, ring: Ring, start: Net, es: seq<NetEvent>, to: Side, k: nat)
    requires Correct(p) && KeysFit(p, ring) && Fresh(start) && NumbersLast(p, ring, start, es)
    requires k < |NetRun(p, ring, start, es).At(Other(to)).sent|
    ensures var n := NetRun(p, ring, start, es);
            var (me, mail, own) := (n.At(to), n.At(Other(to)).sent, OwnOf(p, ring, start, es, to));
            var (f, m) := (mail[k].frame, mail[k].plaintext);
            var (after, out) := OpenStep(p, me.session, f, ring.Of(to).priv);
            if f.epoch < |own| then after == me.session && out == Decrypt(p, own[f.epoch], f)
            else
              && (out == Ok(m) <==> f.kam.Some? || Announced(mail, me.arrived, f.epoch))
              && (out != Ok(m) ==> out == Err(MissingEpochSecret(f.epoch)) && after == me.session)
  {
    hide OpenStep, Genuine, NetRun, Begun, NextEpoch, Decrypt, OwnOf, Incoming, Outgoing, NetInvariant, Announced;
    var n := NetRun(p, ring, start, es);
    var (me, you) := (n.At(to), n.At(Other(to)));
    InvariantHolds(p, ring, start, es);
    BothSides(p, ring, n, to);
    OwnSecretsHeld(p, ring, start, es, to, you.sent[k].frame.epoch);
    assert Genuine(p, ring.Of(to), you.session, you.sent[k]) by { SentIsGenuine(p, ring.Of(to), you, k); }
    Decided(p, ring.Of(to), you, me, k);
  }

  lemma SentIsGenuine(p: Primitives, keys: Keys, x: Party, k: nat)
    requires Outgoing(p, keys, x) && k < |x.sent|
    ensures Genuine(p, keys, x.session, x.sent[k])
  {
  }

  ghost predicate SubMap<K, V>(a: map<K, V>, b: map<K, V>) {
    forall k :: k in a ==> k in b && a[k] == b[k]
  }

  /** One-way use: a side that never seals knows a part of the other's secrets, and KAMs alone decide. */
  lemma OneWay(p: Primitives, ring: Ring, start: Net, es: seq<NetEvent>, to: Side, k: nat)
    requires Correct(p) && KeysFit(p, ring) && Fresh(start)
    requires Begun(p, ring, start, es, Other(to)) <= U64_SIZE
    requires forall i :: 0 <= i < |es| ==> !(es[i].Send? && es[i].side == to)
    requires k < |NetRun(p, ring, start, es).At(Other(to)).sent|
    ensures var n := NetRun(p, ring, start, es);
            var (me, you) := (n.At(to), n.At(Other(to)));
            var (f, m) := (you.sent[k].frame, you.sent[k].plaintext);
            var (after, out) := OpenStep(p, me.session, f, ring.Of(to).priv);
            && SubMap(me.session.secrets, you.session.secrets)
            && (out == Ok(m) <==> f.kam.Some? || Announced(you.sent, me.arrived, f.epoch))
            && (out != Ok(m) ==> out == Err(MissingEpochSecret(f.epoch)) && after == me.session)
  {
    hide OpenStep, NetRun, OwnOf, Announced, Outgoing, Incoming, NetInvariant, NextEpoch, SubMap;
    forall d: Side ensures Begun(p, ring, start, es, d) <= U64_SIZE {
      assert d == to || d == Other(to);
    }
    OwnSecretsHeld(p, ring, start, es, to, 0);
    Delivery(p, ring, start, es, to, k);
    InvariantHolds(p, ring, start, es);
    BothSides(p, ring, NetRun(p, ring, start, es), to);
    SilentLearns(NetRun(p, ring, start, es).At(Other(to)), NetRun(p, ring, start, es).At(to));
  }

  lemma SilentLearns(from: Party, to: Party)
    requires Incoming(from, to) && NextEpoch(to.session) == 0
    ensures SubMap(to.session.secrets, from.session.secrets)
  {
    hide Announced, NextEpoch;
  }

  /** Every frame that either side sends travels as a token, up to plaintexts of almost 2^32 bytes,
      and never makes the other side panic. */
  lemma FramesTravel(p: Primitives, ring: Ring, start: Net, es: seq<NetEvent>, d: Side, k: nat)
    requires Correct(p) && KeysFit(p, ring) && Fresh(start) && NumbersLast(p, ring, start, es)
    requires k < |NetRun(p, ring, start, es).At(d).sent|
    ensures var x := NetRun(p, ring, start, es).At(d).sent[k];
            && (FromToken(ToToken(x.frame)) == Ok(x.frame) <==> |x.plaintext| + TAG_LEN < U32_SIZE)
            && forall s, priv :: OpenStep(p, s, x.frame, priv).1 != Err(NoncePanic)
  {
    hide ToToken, FromToken, NetRun, OpenStep, Genuine, NetInvariant, FieldsFit, NumbersLast, Decidable;
    InvariantHolds(p, ring, start, es);
    var x := NetRun(p, ring, start, es).At(d);
    BothSides(p, ring, NetRun(p, ring, start, es), d);
    SentIsGenuine(p, ring.Of(Other(d)), x, k);
    GenuineFits(p, ring.Of(Other(d)), x.session, x.sent[k]);
    TokenRoundTrip(x.sent[k].frame);
    forall s, priv ensures OpenStep(p, s, x.sent[k].frame, priv).1 != Err(NoncePanic) {
      PanicsExactly(p, s, x.sent[k].frame, priv);
    }
  }

  lemma GenuineFits(p: Primitives, keys: Keys, s: SessionState, x: Sent)
    requires Genuine(p, keys, s, x)
    ensures |x.frame.nonce| == NONCE_LEN
    ensures FieldsFit(x.frame) <==> |x.plaintext| + TAG_LEN < U32_SIZE
  {
  }
}
