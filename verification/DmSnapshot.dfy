/** Saving a session as JSON and rebuilding it. */
module DmSnapshot {
  import opened Basics
  import opened Order
  import opened Digits
  import opened Json
  import opened Crypto
  import opened Ratchet
  import opened DmState

  // -- saving ---------------------------------------------------------------------------------------

  /** Epoch secrets as hex under decimal keys. */
  function SecretsJson(secrets: map<U64, Secret>): map<string, Json> {
    ToStringIsInjective();
    map epoch | epoch in secrets :: ToString(epoch) := String(HexEncode(secrets[epoch]))
  }

  lemma ToStringIsInjective()
    ensures forall n: U64, m: U64 :: ToString(n) == ToString(m) ==> n == m
  {
    forall n: U64, m: U64 | ToString(n) == ToString(m) ensures n == m {
      ToStringInjective(n, m);
    }
  }

  function RatchetJson(r: Option<RatchetState>): Json {
    match r
    case None => Null
    case Some(r) =>
      Object(map[
        "epoch" := Number(r.epoch),
        "message_index" := Number(r.index),
        "epoch_started_at" := Number(r.startedAt)])
  }

  function KamJson(kam: Option<Bytes>): Json {
    match kam case None => Null case Some(b) => String(HexEncode(b))
  }

  function Snapshot(s: SessionState): Json {
    Object(map[
      "v" := Number(1),
      "peer" := String(s.peer),
      "rekey_msg_bound" := Number(s.msgBound),
      "rekey_age_seconds" := Number(s.ageBound),
      "epoch_secrets" := Object(SecretsJson(s.secrets)),
      "current_kam" := KamJson(s.kam),
      "ratchet" := RatchetJson(s.ratchet)])
  }

  // -- restoring ------------------------------------------------------------------------------------

  /** `value.get(key)`: nothing unless the value is an object with that key. */
  function Get(v: Json, key: string): Option<Json> {
    if v.Object? && key in v.members then Some(v.members[key]) else None
  }

  function GetU64(v: Json, key: string): Option<U64> {
    match Get(v, key)
    case Some(Number(n)) => if n >= 0 then Some(n) else None
    case _ => None
  }

  function ReadSecret(v: Json): Option<Secret> {
    match v
    case String(text) =>
      (match HexDecode(text)
       case None => None
       case Some(raw) => if |raw| == EPOCH_SECRET_LEN then Some(raw) else None)
    case _ => None
  }

  /** The loop over the saved secrets; any malformed entry fails the whole restore. */
  function ReadSecrets(ks: seq<string>, saved: map<string, Json>, acc: map<U64, Secret>): Option<map<U64, Secret>>
    requires forall k :: k in ks ==> k in saved
  {
    if ks == [] then Some(acc)
    else
      match (ParseU64(ks[0]), ReadSecret(saved[ks[0]]))
      case (Some(epoch), Some(secret)) => ReadSecrets(ks[1..], saved, acc[epoch := secret])
      case _ => None
  }

  ghost function SavedSecrets(snap: Json): Option<map<U64, Secret>> {
    match Get(snap, "epoch_secrets")
    case Some(Object(saved)) => ReadSecrets(SortedKeys(saved.Keys), saved, map[])
    case _ => Some(map[])
  }

  /** The saved KAM; a string that is no hex is an error, anything but a string is absent. */
  function SavedKam(snap: Json): Option<Option<Bytes>> {
    match Get(snap, "current_kam")
    case Some(String(text)) =>
      (match HexDecode(text) case None => None case Some(b) => Some(Some(b)))
    case _ => Some(None)
  }

  /** The saved ratchet, completed from the store and the session's bounds. */
  function SavedRatchet(snap: Json, msgBound: U64, ageBound: U64, secrets: map<U64, Secret>)
    : Option<Option<RatchetState>>
  {
    match Get(snap, "ratchet")
    case None => Some(None)
    case Some(rt) =>
      if rt == Null then Some(None)
      else
        match (GetU64(rt, "epoch"), GetU64(rt, "message_index"), Get(rt, "epoch_started_at"))
        case (Some(epoch), Some(index), Some(Number(startedAt))) =>
          if epoch in secrets
          then Some(Some(RatchetState(epoch, secrets[epoch], index, msgBound, ageBound, startedAt)))
          else None
        case _ => None
  }

  ghost function Restore(snap: Json): Result<SessionState, DmSessionError> {
    match (Get(snap, "peer"), GetU64(snap, "rekey_msg_bound"), GetU64(snap, "rekey_age_seconds"))
    case (Some(String(peer)), Some(msgBound), Some(ageBound)) =>
      (match (SavedSecrets(snap), SavedKam(snap))
       case (Some(secrets), Some(kam)) =>
         (match SavedRatchet(snap, msgBound, ageBound, secrets)
          case None => Err(BadToken)
          case Some(ratchet) => Ok(SessionState(peer, msgBound, ageBound, ratchet, secrets, kam)))
       case _ => Err(BadToken))
    case _ => Err(BadToken)
  }

  // -- round trip -----------------------------------------------------------------------------------

  /** Every saved entry is some epoch's secret and reads back as such. */
  lemma SavedEntry(secrets: map<U64, Secret>, k: string) returns (epoch: U64)
    requires k in SecretsJson(secrets)
    ensures epoch in secrets && k == ToString(epoch)
    ensures ParseU64(k) == Some(epoch) && ReadSecret(SecretsJson(secrets)[k]) == Some(secrets[epoch])
  {
    ToStringIsInjective();
    epoch :| epoch in secrets && k == ToString(epoch);
    ParseToString(epoch);
    HexRoundTrip(secrets[epoch]);
  }

  /** The secrets whose decimal key is listed. */
  ghost function Listed(ks: seq<string>, secrets: map<U64, Secret>): map<U64, Secret> {
    map epoch | epoch in secrets && ToString(epoch) in ks :: secrets[epoch]
  }

  lemma ListedStep(ks: seq<string>, secrets: map<U64, Secret>, acc: map<U64, Secret>, epoch: U64)
    requires ks != [] && epoch in secrets && ks[0] == ToString(epoch)
    ensures acc[epoch := secrets[epoch]] + Listed(ks[1..], secrets) == acc + Listed(ks, secrets)
  {
    hide ToString;
    ToStringIsInjective();
    assert ks == [ks[0]] + ks[1..];
  }

  lemma {:induction false} ReadSavedSecrets(ks: seq<string>, secrets: map<U64, Secret>, acc: map<U64, Secret>)
    requires forall k :: k in ks ==> k in SecretsJson(secrets)
    ensures ReadSecrets(ks, SecretsJson(secrets), acc) == Some(acc + Listed(ks, secrets))
  {
    hide SecretsJson, ToString, ParseU64, ReadSecret;
    if ks == [] {
      assert acc + Listed(ks, secrets) == acc;
    } else {
      assert ks[0] in ks;
      var epoch := SavedEntry(secrets, ks[0]);
      ReadSavedSecrets(ks[1..], secrets, acc[epoch := secrets[epoch]]);
      ListedStep(ks, secrets, acc, epoch);
    }
  }

  lemma AllListed(secrets: map<U64, Secret>)
    ensures map[] + Listed(SortedKeys(SecretsJson(secrets).Keys), secrets) == secrets
    ensures forall k :: k in SortedKeys(SecretsJson(secrets).Keys) ==> k in SecretsJson(secrets)
  {
    hide ToString, SecretsJson;
    var saved := SecretsJson(secrets);
    SortedKeysAreKeys(saved);
    forall epoch | epoch in secrets ensures ToString(epoch) in SortedKeys(saved.Keys) {
      EpochIsSaved(secrets, epoch);
    }
  }

  lemma SortedKeysAreKeys(saved: map<string, Json>)
    ensures forall k :: k in SortedKeys(saved.Keys) <==> k in saved
  {
    assert forall k :: k in SortedKeys(saved.Keys) <==> k in Elements(SortedKeys(saved.Keys));
  }

  lemma EpochIsSaved(secrets: map<U64, Secret>, epoch: U64)
    requires epoch in secrets
    ensures ToString(epoch) in SecretsJson(secrets)
  {
    hide ToString, HexEncode;
    ToStringIsInjective();
  }

  lemma SecretsRoundTrip(s: SessionState)
    ensures SavedSecrets(Snapshot(s)) == Some(s.secrets)
  {
    hide ReadSecrets, SecretsJson, Listed, RatchetJson, KamJson;
    AllListed(s.secrets);
    var ks := SortedKeys(SecretsJson(s.secrets).Keys);
    ReadSavedSecrets(ks, s.secrets, map[]);
    assert Get(Snapshot(s), "epoch_secrets") == Some(Object(SecretsJson(s.secrets)));
  }

  lemma KamRoundTrip(s: SessionState)
    ensures SavedKam(Snapshot(s)) == Some(s.kam)
  {
    if s.kam.Some? {
      HexRoundTrip(s.kam.value);
    }
  }

  /** A ratchet with the parts a snapshot leaves out taken from the session. */
  function Completed(s: SessionState): SessionState
    requires s.ratchet.Some? ==> s.ratchet.value.epoch in s.secrets
  {
    match s.ratchet
    case None => s
    case Some(r) =>
      s.(ratchet := Some(r.(secret := s.secrets[r.epoch], msgBound := s.msgBound, ageBound := s.ageBound)))
  }

  /** What a saved session comes back as, for any state at all. */
  lemma RestoreOfSnapshot(s: SessionState)
    ensures Restore(Snapshot(s)) ==
      if s.ratchet.Some? && s.ratchet.value.epoch !in s.secrets then Err(BadToken) else Ok(Completed(s))
  {
    hide SavedSecrets, SavedKam, SecretsJson, KamJson;
    SecretsRoundTrip(s);
    KamRoundTrip(s);
  }

  /** What the saved form does not carry: the ratchet's secret and bounds must be the session's own. */
  predicate Restorable(s: SessionState) {
    s.ratchet.Some? ==>
      var r := s.ratchet.value;
      r.epoch in s.secrets && s.secrets[r.epoch] == r.secret && r.msgBound == s.msgBound && r.ageBound == s.ageBound
  }

  /** Restoring a snapshot gives the same session back exactly on these states. */
  lemma SnapshotIsFaithful(s: SessionState)
    ensures Restore(Snapshot(s)) == Ok(s) <==> Restorable(s)
  {
    RestoreOfSnapshot(s);
  }

  // -- the saved document ----------------------------------------------------------------------------

  /** The document, field by field. */
  lemma SavedDocument(s: SessionState)
    ensures Snapshot(s) == Object(map[
      "v" := Number(1),
      "peer" := String(s.peer),
      "rekey_msg_bound" := Number(s.msgBound),
      "rekey_age_seconds" := Number(s.ageBound),
      "epoch_secrets" := Object(SecretsJson(s.secrets)),
      "current_kam" := if s.kam.None? then Null else String(HexEncode(s.kam.value)),
      "ratchet" := if s.ratchet.None? then Null else Object(map[
        "epoch" := Number(s.ratchet.value.epoch),
        "message_index" := Number(s.ratchet.value.index),
        "epoch_started_at" := Number(s.ratchet.value.startedAt)])])
  {
    hide SecretsJson, HexEncode;
  }

  /** Its secrets: one entry for every epoch, in hex under the decimal number, and no other. */
  lemma SavedSecretEntries(s: SessionState, k: string)
    ensures var saved := Get(Snapshot(s), "epoch_secrets");
            && saved.Some? && saved.value.Object?
            && (k in saved.value.members <==> exists epoch :: epoch in s.secrets && k == ToString(epoch))
            && forall epoch :: epoch in s.secrets ==>
                 && ToString(epoch) in saved.value.members
                 && saved.value.members[ToString(epoch)] == String(HexEncode(s.secrets[epoch]))
  {
    hide ToString, HexEncode;
    ToStringIsInjective();
    assert Get(Snapshot(s), "epoch_secrets") == Some(Object(SecretsJson(s.secrets)));
  }

  /** A saved entry: a number for a `u64` and 64 hexadecimal digits. */
  predicate GoodEntry(k: string, v: Json) {
    && ParseU64(k).Some?
    && v.String? && |v.s| == 64 && forall i :: 0 <= i < 64 ==> FromHexDigit(v.s[i]).Some?
  }

  lemma SecretReads(v: Json)
    ensures ReadSecret(v).Some? <==>
      v.String? && |v.s| == 64 && forall i :: 0 <= i < 64 ==> FromHexDigit(v.s[i]).Some?
  {
    hide FromHexDigit, HexDecode;
    if v.String? {
      HexDecodes(v.s);
    }
  }

  /** The loop over the entries accepts exactly good ones, and knows exactly their epochs. */
  lemma {:induction false} SecretsRead(ks: seq<string>, saved: map<string, Json>, acc: map<U64, Secret>)
    requires forall k :: k in ks ==> k in saved
    ensures var r := ReadSecrets(ks, saved, acc);
            && (r.Some? <==> forall k :: k in ks ==> GoodEntry(k, saved[k]))
            && (r.Some? ==> forall epoch: U64 :: epoch in r.value <==>
                 epoch in acc || exists k :: k in ks && ParseU64(k) == Some(epoch))
  {
    hide ParseU64, ReadSecret;
    if ks != [] {
      SecretReads(saved[ks[0]]);
      assert ks == [ks[0]] + ks[1..];
      if GoodEntry(ks[0], saved[ks[0]]) {
        var epoch := ParseU64(ks[0]).value;
        SecretsRead(ks[1..], saved, acc[epoch := ReadSecret(saved[ks[0]]).value]);
      }
    }
  }

  /** The saved entries of the secrets, none when the field is missing or no object. */
  function Entries(snap: Json): map<string, Json> {
    match Get(snap, "epoch_secrets") case Some(Object(saved)) => saved case _ => map[]
  }

  /** The saved ratchet is absent, `null`, or complete and in an epoch whose secret was saved. */
  predicate GoodRatchet(snap: Json) {
    var rt := Get(snap, "ratchet");
    rt.Some? && rt.value != Null ==>
      && GetU64(rt.value, "epoch").Some? && GetU64(rt.value, "message_index").Some?
      && Get(rt.value, "epoch_started_at").Some? && Get(rt.value, "epoch_started_at").value.Number?
      && exists k :: k in Entries(snap) && ParseU64(k) == GetU64(rt.value, "epoch")
  }

  /** The saved KAM is hexadecimal, if it is text at all. */
  predicate GoodKam(snap: Json) {
    var kam := Get(snap, "current_kam");
    kam.Some? && kam.value.String? ==>
      |kam.value.s| % 2 == 0 && forall i :: 0 <= i < |kam.value.s| ==> FromHexDigit(kam.value.s[i]).Some?
  }

  predicate GoodEntries(snap: Json) {
    forall k :: k in Entries(snap) ==> GoodEntry(k, Entries(snap)[k])
  }

  /** Exactly which documents restore. */
  lemma RestoreAccepts(snap: Json)
    ensures Restore(snap).Ok? <==>
      && Get(snap, "peer").Some? && Get(snap, "peer").value.String?
      && GetU64(snap, "rekey_msg_bound").Some? && GetU64(snap, "rekey_age_seconds").Some?
      && GoodEntries(snap) && GoodKam(snap) && GoodRatchet(snap)
  {
    hide Get, GetU64, GoodEntries, GoodKam, GoodRatchet, SavedSecrets, SavedKam, SavedRatchet;
    EntriesRead(snap);
    KamReads(snap);
    var (msgBound, ageBound) := (GetU64(snap, "rekey_msg_bound"), GetU64(snap, "rekey_age_seconds"));
    if SavedSecrets(snap).Some? && msgBound.Some? && ageBound.Some? {
      RatchetReads(snap, msgBound.value, ageBound.value, SavedSecrets(snap).value);
    }
  }

  /** What a document that restores gives, and the one error of all others. */
  lemma RestoreGives(snap: Json)
    ensures Restore(snap).Err? ==> Restore(snap) == Err(BadToken)
    ensures Restore(snap).Ok? ==>
      var s := Restore(snap).value;
      && Get(snap, "peer") == Some(String(s.peer))
      && GetU64(snap, "rekey_msg_bound") == Some(s.msgBound) && GetU64(snap, "rekey_age_seconds") == Some(s.ageBound)
      && (forall epoch: U64 :: epoch in s.secrets <==> exists k :: k in Entries(snap) && ParseU64(k) == Some(epoch))
      && (s.kam.Some? <==> Get(snap, "current_kam").Some? && Get(snap, "current_kam").value.String?)
      && (s.kam.Some? ==> HexDecode(Get(snap, "current_kam").value.s) == s.kam)
      && RestoredRatchet(snap, s)
  {
    hide Get, GetU64, ParseU64, HexDecode, SavedSecrets, SavedRatchet, Entries, RestoredRatchet;
    EntriesRead(snap);
    var (msgBound, ageBound) := (GetU64(snap, "rekey_msg_bound"), GetU64(snap, "rekey_age_seconds"));
    if Restore(snap).Ok? {
      RatchetIs(snap, Restore(snap).value);
    }
  }

  /** The ratchet is the saved one, with the secret of its epoch and the bounds of the session. */
  predicate RestoredRatchet(snap: Json, s: SessionState) {
    var rt := Get(snap, "ratchet");
    if rt.None? || rt.value == Null then s.ratchet.None?
    else
      && s.ratchet.Some? && s.ratchet.value.epoch in s.secrets
      && var r := s.ratchet.value;
      && Get(rt.value, "epoch") == Some(Number(r.epoch))
      && Get(rt.value, "message_index") == Some(Number(r.index))
      && Get(rt.value, "epoch_started_at") == Some(Number(r.startedAt))
      && r.secret == s.secrets[r.epoch] && r.msgBound == s.msgBound && r.ageBound == s.ageBound
  }

  lemma RatchetIs(snap: Json, s: SessionState)
    requires SavedRatchet(snap, s.msgBound, s.ageBound, s.secrets) == Some(s.ratchet)
    ensures RestoredRatchet(snap, s)
  {
    hide Get;
  }

  lemma KamReads(snap: Json)
    ensures SavedKam(snap).Some? <==> GoodKam(snap)
  {
    hide Get, HexDecode, FromHexDigit;
    var kam := Get(snap, "current_kam");
    if kam.Some? && kam.value.String? {
      HexDecodes(kam.value.s);
    }
  }

  lemma RatchetReads(snap: Json, msgBound: U64, ageBound: U64, secrets: map<U64, Secret>)
    requires forall epoch: U64 :: epoch in secrets <==> exists k :: k in Entries(snap) && ParseU64(k) == Some(epoch)
    ensures SavedRatchet(snap, msgBound, ageBound, secrets).Some? <==> GoodRatchet(snap)
  {
    hide Get, GetU64, ParseU64, Entries;
  }

  lemma EntriesRead(snap: Json)
    ensures var r := SavedSecrets(snap);
            && (r.Some? <==> GoodEntries(snap))
            && (r.Some? ==> forall epoch: U64 :: epoch in r.value <==>
                 exists k :: k in Entries(snap) && ParseU64(k) == Some(epoch))
  {
    hide ParseU64, ReadSecrets, GoodEntry, Get;
    var ks := SortedKeys(Entries(snap).Keys);
    SortedKeysAreKeys(Entries(snap));
    SecretsRead(ks, Entries(snap), map[]);
  }

  // -- interrupted runs -----------------------------------------------------------------------------

  /** The session after being saved and rebuilt; a failed restore would stop the run. */
  ghost function Restart(r: Result<SessionState, DmSessionError>): Result<SessionState, DmSessionError> {
    match r case Err(e) => Err(e) case Ok(s) => Restore(Snapshot(s))
  }

  /** A run saved and rebuilt after every one of its segments. */
  ghost function InterruptedRun(p: Primitives, s: SessionState, segments: seq<seq<Event>>)
    : Result<SessionState, DmSessionError>
  {
    if segments == [] then Ok(s)
    else
      match InterruptedRun(p, s, Front(segments))
      case Err(e) => Err(e)
      case Ok(t) => Restart(Ok(Run(p, t, Last(segments))))
  }

  function Flatten<T>(xss: seq<seq<T>>): seq<T> {
    if xss == [] then [] else Flatten(Front(xss)) + Last(xss)
  }

  lemma {:induction false} RunAppend(p: Primitives, s: SessionState, es: seq<Event>, fs: seq<Event>)
    ensures Run(p, Run(p, s, es), fs) == Run(p, s, es + fs)
  {
    hide Step;
    if fs == [] {
      assert es + fs == es;
    } else {
      RunAppend(p, s, es, Front(fs));
      assert Front(es + fs) == es + Front(fs);
    }
  }

  /** Saving and rebuilding at any points of a run changes nothing about it. */
  lemma {:induction false} RestartsAreInvisible(p: Primitives, s: SessionState, segments: seq<seq<Event>>)
    requires Coherent(s)
    ensures InterruptedRun(p, s, segments) == Ok(Run(p, s, Flatten(segments)))
  {
    hide Step, Coherent;
    if segments != [] {
      RestartsAreInvisible(p, s, Front(segments));
      var t := Run(p, s, Flatten(Front(segments)));
      RunAppend(p, s, Flatten(Front(segments)), Last(segments));
      RunCoherent(p, s, Flatten(segments));
      CoherentIsRestorable(Run(p, s, Flatten(segments)));
      SnapshotIsFaithful(Run(p, s, Flatten(segments)));
    }
  }

  lemma CoherentIsRestorable(s: SessionState)
    requires Coherent(s)
    ensures Restorable(s)
  {
  }

  // -- with the public fields written ----------------------------------------------------------------

  /** A caller may also write the three public fields, at any time, and save and rebuild the session. */
  datatype Call =
    | Act(event: Event)
    | Write(peer: string, msgBound: U64, ageBound: U64)
    | SaveAndRebuild

  ghost function CallStep(p: Primitives, r: Result<SessionState, DmSessionError>, c: Call)
    : Result<SessionState, DmSessionError>
  {
    match r
    case Err(e) => Err(e)
    case Ok(s) =>
      match c
      case Act(e) => Ok(Step(p, s, e))
      case Write(peer, msgBound, ageBound) => Ok(s.(peer := peer, msgBound := msgBound, ageBound := ageBound))
      case SaveAndRebuild => Restore(Snapshot(s))
  }

  ghost function CallRun(p: Primitives, s: SessionState, calls: seq<Call>): Result<SessionState, DmSessionError> {
    if calls == [] then Ok(s) else CallStep(p, CallRun(p, s, Front(calls)), Last(calls))
  }

  /** The store holds the ratchet's secret: all that is left of the invariant under such writes. */
  predicate Stored(s: SessionState) {
    s.ratchet.Some? ==>
      var r := s.ratchet.value;
      r.epoch in s.secrets && s.secrets[r.epoch] == r.secret
  }

  lemma StepStored(p: Primitives, s: SessionState, e: Event)
    requires Stored(s)
    ensures Stored(Step(p, s, e))
  {
    hide WrapDmEpochSecret, UnwrapDmEpochSecret, DeriveDmMessageKey, Decrypt, FrameAad;
  }

  /** Whatever calls came before, a restart succeeds. It gives the session back exactly when the
      bounds are still those the current epoch was begun with; else the epoch takes the new ones. */
  lemma {:induction false} RestartsAfterWrites(p: Primitives, s: SessionState, calls: seq<Call>)
    requires Stored(s)
    ensures CallRun(p, s, calls).Ok?
    ensures var t := CallRun(p, s, calls).value;
            && Stored(t) && Restore(Snapshot(t)) == Ok(Completed(t))
            && (Restore(Snapshot(t)) == Ok(t) <==>
                 t.ratchet.Some? ==> t.ratchet.value.msgBound == t.msgBound && t.ratchet.value.ageBound == t.ageBound)
  {
    hide Snapshot, Restore, Step;
    if calls != [] {
      RestartsAfterWrites(p, s, Front(calls));
      var t := CallRun(p, s, Front(calls)).value;
      match Last(calls)
      case Act(e) => StepStored(p, t, e);
      case Write(_, _, _) =>
      case SaveAndRebuild =>
    }
    RestoreOfSnapshot(CallRun(p, s, calls).value);
  }

  /** Written bounds wait for the next epoch, unless a restart brings them into the current one. */
  lemma WrittenBounds(s: SessionState, peer: string, msgBound: U64, ageBound: U64, now: Seconds)
    requires Coherent(s) && s.ratchet.Some?
    ensures var written := s.(peer := peer, msgBound := msgBound, ageBound := ageBound);
            var (r, rebuilt) := (s.ratchet.value, Restore(Snapshot(written)));
            && BeginAt(written, now) == BeginAt(s, now)
            && rebuilt.Ok?
            && (BeginAt(rebuilt.value, now).Some? <==> ShouldRekey(r.index, r.startedAt, now, msgBound, ageBound))
  {
    hide Snapshot, Restore;
    RestoreOfSnapshot(s.(peer := peer, msgBound := msgBound, ageBound := ageBound));
  }
}
