/** The DM session as a state machine on values: what `seal` and `open` do to the state. */
module DmState {
  import opened Basics
  import opened Crypto
  import opened Ratchet

  const AAD_PREFIX: Bytes := Ascii("skchat/dm-frame/v1")
  const KAM_REPEAT := 3

  /** Binds the slot of a frame into its associated data. */
  function FrameAad(epoch: U64, index: U64): Bytes {
    AAD_PREFIX + [0x7C] + U64Be(epoch) + U64Be(index)
  }

  datatype SealedDmFrame = SealedDmFrame(epoch: U64, index: U64, nonce: Bytes, body: Bytes, kam: Option<Bytes>)

  datatype DmSessionError =
    | BadToken
    | OpenFailed
    /** Stands for the panic on a nonce that is not 12 bytes, raised after the store was updated. */
    | NoncePanic
    | MissingEpochSecret(epoch: U64)
    | RatchetFailed(ratchet: RatchetError)

  datatype SessionState = SessionState(
    peer: string,
    msgBound: U64,
    ageBound: U64,
    ratchet: Option<RatchetState>,
    secrets: map<U64, Secret>,
    kam: Option<Bytes>)

  /** Clock readings and random draws of one `seal`. */
  datatype Coins = Coins(checkedAt: Seconds, startedAt: Seconds, secret: Secret, wrap: WrapCoins, nonce: Nonce)

  function NewSession(peer: string, msgBound: U64, ageBound: U64): SessionState {
    SessionState(peer, msgBound, ageBound, None, map[], None)
  }

  /** The epoch that the next `seal` has to begin, if any. */
  function BeginAt(s: SessionState, now: Seconds): Option<U64> {
    match s.ratchet
    case None => Some(0)
    case Some(r) => if r.Due(now) then Some((r.epoch + 1) % U64_SIZE) else None
  }

  function BeginEpoch(p: Primitives, s: SessionState, epoch: U64, pub: Bytes, c: Coins)
    : Result<SessionState, DmSessionError>
  {
    match WrapDmEpochSecret(p, c.secret, pub, c.wrap)
    case Err(e) => Err(RatchetFailed(e))
    case Ok(kam) =>
      Ok(s.(secrets := s.secrets[epoch := c.secret],
            ratchet := Some(RatchetState(epoch, c.secret, 0, s.msgBound, s.ageBound, c.startedAt)),
            kam := Some(kam)))
  }

  /** The session with an epoch ready to seal under. */
  function Prepare(p: Primitives, s: SessionState, pub: Bytes, c: Coins): (r: Result<SessionState, DmSessionError>)
    ensures r.Ok? ==> r.value.ratchet.Some?
  {
    match BeginAt(s, c.checkedAt)
    case None => Ok(s)
    case Some(epoch) => BeginEpoch(p, s, epoch, pub, c)
  }

  function SealStep(p: Primitives, s: SessionState, plaintext: Bytes, pub: Bytes, c: Coins)
    : (SessionState, Result<SealedDmFrame, DmSessionError>)
  {
    match Prepare(p, s, pub, c)
    case Err(e) => (s, Err(e))
    case Ok(ready) =>
      var r := ready.ratchet.value;
      var after := ready.(ratchet := Some(r.Advanced()));
      var kam := if r.index < KAM_REPEAT then ready.kam else None;
      match p.seal(DeriveDmMessageKey(p, r.secret, r.epoch, r.index), c.nonce, plaintext, FrameAad(r.epoch, r.index))
      case None => (after, Err(OpenFailed))
      case Some(body) => (after, Ok(SealedDmFrame(r.epoch, r.index, c.nonce, body, kam)))
  }

  /** Opens the body of a frame under a known epoch secret. */
  function Decrypt(p: Primitives, secret: Secret, f: SealedDmFrame): Result<Bytes, DmSessionError> {
    if |f.nonce| != NONCE_LEN then Err(NoncePanic)
    else
      match p.open(DeriveDmMessageKey(p, secret, f.epoch, f.index), f.nonce, f.body, FrameAad(f.epoch, f.index))
      case None => Err(OpenFailed)
      case Some(m) => Ok(m)
  }

  /** The secret store after looking at the frame's key-agreement message. */
  function Learn(p: Primitives, s: SessionState, f: SealedDmFrame, priv: Bytes): Result<SessionState, DmSessionError> {
    if f.kam.Some? && f.epoch !in s.secrets then
      match UnwrapDmEpochSecret(p, f.kam.value, priv)
      case Err(e) => Err(RatchetFailed(e))
      case Ok(secret) => Ok(s.(secrets := s.secrets[f.epoch := secret]))
    else Ok(s)
  }

  function OpenStep(p: Primitives, s: SessionState, f: SealedDmFrame, priv: Bytes)
    : (SessionState, Result<Bytes, DmSessionError>)
  {
    match Learn(p, s, f, priv)
    case Err(e) => (s, Err(e))
    case Ok(learnt) =>
      if f.epoch !in learnt.secrets then (learnt, Err(MissingEpochSecret(f.epoch)))
      else (learnt, Decrypt(p, learnt.secrets[f.epoch], f))
  }

  // -- runs ----------------------------------------------------------------------------------------

  datatype Event =
    | Seal(plaintext: Bytes, pub: Bytes, coins: Coins)
    | Open(frame: SealedDmFrame, priv: Bytes)

  function Step(p: Primitives, s: SessionState, e: Event): SessionState {
    match e
    case Seal(m, pub, c) => SealStep(p, s, m, pub, c).0
    case Open(f, priv) => OpenStep(p, s, f, priv).0
  }

  function Front<T>(xs: seq<T>): seq<T>
    requires xs != []
  {
    xs[..|xs| - 1]
  }

  function Last<T>(xs: seq<T>): T
    requires xs != []
  {
    xs[|xs| - 1]
  }

  /** The state after a run. */
  function Run(p: Primitives, s: SessionState, es: seq<Event>): SessionState {
    if es == [] then s else Step(p, Run(p, s, Front(es)), Last(es))
  }

  /** The event begins an epoch: a rekey is due and the wrap succeeds. */
  predicate Begins(p: Primitives, s: SessionState, e: Event) {
    e.Seal? && BeginAt(s, e.coins.checkedAt).Some? && Prepare(p, s, e.pub, e.coins).Ok?
  }

  /** Number of epochs begun along a run. */
  function BeginCount(p: Primitives, s: SessionState, es: seq<Event>): (n: nat)
    ensures n <= |es|
  {
    if es == [] then 0
    else BeginCount(p, s, Front(es)) + (if Begins(p, Run(p, s, Front(es)), Last(es)) then 1 else 0)
  }

  /** The number of the epoch that would come next, before wrap-around. */
  function NextEpoch(s: SessionState): nat {
    match s.ratchet case None => 0 case Some(r) => r.epoch + 1
  }

  /** No epoch number of the run passes the last `u64`. */
  predicate NoWrap(p: Primitives, s: SessionState, es: seq<Event>) {
    NextEpoch(s) + BeginCount(p, s, es) <= U64_SIZE
  }

  /** What construction, `seal`, `open` and `restore` keep of a session. */
  predicate Coherent(s: SessionState) {
    s.ratchet.Some? ==>
      var r := s.ratchet.value;
      && r.epoch in s.secrets
      && s.secrets[r.epoch] == r.secret
      && r.msgBound == s.msgBound
      && r.ageBound == s.ageBound
      && 1 <= r.index <= EpochSize(s)
      && s.kam.Some?
  }

  /** Messages per epoch: a bound of zero still seals one. */
  function EpochSize(s: SessionState): (m: U64)
    ensures m >= 1
  {
    if s.msgBound == 0 then 1 else s.msgBound
  }

  predicate SameSettings(s: SessionState, t: SessionState) {
    t.peer == s.peer && t.msgBound == s.msgBound && t.ageBound == s.ageBound
  }

  lemma SealCoherent(p: Primitives, s: SessionState, m: Bytes, pub: Bytes, c: Coins)
    requires Coherent(s)
    ensures var t := SealStep(p, s, m, pub, c).0;
            && Coherent(t) && SameSettings(s, t)
            && NextEpoch(t) == if Begins(p, s, Seal(m, pub, c)) then NextEpoch(s) % U64_SIZE + 1 else NextEpoch(s)
  {
    hide WrapDmEpochSecret, DeriveDmMessageKey, FrameAad;
  }

  lemma OpenCoherent(p: Primitives, s: SessionState, f: SealedDmFrame, priv: Bytes)
    requires Coherent(s)
    ensures var t := OpenStep(p, s, f, priv).0;
            Coherent(t) && SameSettings(s, t) && t.ratchet == s.ratchet && t.kam == s.kam
  {
    hide UnwrapDmEpochSecret, Decrypt;
  }

  lemma StepCoherent(p: Primitives, s: SessionState, e: Event)
    requires Coherent(s)
    ensures Coherent(Step(p, s, e)) && SameSettings(s, Step(p, s, e))
    ensures NextEpoch(Step(p, s, e)) == if Begins(p, s, e) then NextEpoch(s) % U64_SIZE + 1 else NextEpoch(s)
  {
    hide SealStep, OpenStep, Coherent;
    match e
    case Seal(m, pub, c) => SealCoherent(p, s, m, pub, c);
    case Open(f, priv) => OpenCoherent(p, s, f, priv);
  }

  lemma {:induction false} RunCoherent(p: Primitives, s: SessionState, es: seq<Event>)
    requires Coherent(s)
    ensures Coherent(Run(p, s, es)) && SameSettings(s, Run(p, s, es))
  {
    hide Coherent, Step;
    if es != [] {
      RunCoherent(p, s, Front(es));
      StepCoherent(p, Run(p, s, Front(es)), Last(es));
    }
  }

  lemma NewCoherent(peer: string, msgBound: U64, ageBound: U64)
    ensures Coherent(NewSession(peer, msgBound, ageBound))
  {
  }

  /** The next epoch number after `n` epochs were begun: it wraps behind the last `u64`. */
  function Numbered(n: nat): nat {
    if n == 0 then 0 else (n - 1) % U64_SIZE + 1
  }

  /** The number is the count itself up to 2^64, and as a `u64` always. */
  lemma NumberedIsCount(n: nat)
    ensures Numbered(n) <= U64_SIZE
    ensures n <= U64_SIZE ==> Numbered(n) == n
    ensures Numbered(n) % U64_SIZE == n % U64_SIZE
  {
  }

  lemma NumberedNext(n: nat)
    ensures Numbered(n + 1) == Numbered(n) % U64_SIZE + 1
  {
    NumberedIsCount(n);
  }

  /** Along every run the next epoch number counts the epochs begun. */
  lemma {:induction false} NextEpochCounts(p: Primitives, s: SessionState, es: seq<Event>)
    requires Coherent(s)
    ensures NextEpoch(Run(p, s, es)) == Numbered(NextEpoch(s) + BeginCount(p, s, es))
  {
    hide Coherent, Step, Begins, Numbered;
    if es == [] {
      NumberedIsCount(NextEpoch(s));
    } else {
      NextEpochCounts(p, s, Front(es));
      NumberedNext(NextEpoch(s) + BeginCount(p, s, Front(es)));
      RunCoherent(p, s, Front(es));
      StepCoherent(p, Run(p, s, Front(es)), Last(es));
    }
  }
}
