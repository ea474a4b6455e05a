/** The runtime self-report: notes per surface, their honesty screen, and the summary. */
module Report {
  import opened Basics
  import opened Digits
  import opened HonestText
  import opened Suites

  const DEFAULT_CONVERSATION_SUITE := "x25519-pgp-wrap-v1"

  datatype RatchetLevel = L2Oneshot | L3Epoch
  {
    function AsText(): string {
      if L2Oneshot? then "L2-oneshot" else "L3-epoch"
    }
  }

  datatype ConversationKind = Dm | Envelope

  datatype SurfaceReport = SurfaceReport(
    surface: string,
    component: string,
    activeSuite: string,
    status: string,
    quantumResistant: bool,
    primitives: seq<string>,
    fipsRefs: seq<string>,
    note: string)

  // -- suites --------------------------------------------------------------------------------------

  datatype Resolved = Resolved(
    status: SuiteStatus, primitives: seq<string>, fipsRefs: seq<string>, quantumResistant: bool)

  /** An unknown suite counts as classical. */
  function ResolveSuite(rows: Rows, id: string): Resolved {
    if id in rows then
      var x := rows[id];
      Resolved(x.status, x.primitives, x.fipsRefs, x.status.IsQuantumResistant())
    else Resolved(Classical, ["unknown"], [], false)
  }

  /** No suite named means the classical fallback. */
  function SuiteInUse(negotiated: string): string {
    if negotiated == "" then DEFAULT_CONVERSATION_SUITE else negotiated
  }

  // -- wording -------------------------------------------------------------------------------------

  const CLASSICAL_HEAD: seq<string> :=
    ["on", "the", "CLASSICAL", "PGP", "key-wrap", ""]

  const CLASSICAL_MID: seq<string> :=
    ["", "—", "HNDL-exposed:", "recorded", "ciphertext", "is", "retroactively", "decryptable.", "The"]

  const CLASSICAL_TAIL: seq<string> :=
    ["ratchet", "structure", "provides", "NO", "post-quantum", "confidentiality", "while", "the", "KEM", "is",
     "classical;", "negotiate", "the", "hybrid", "X25519+ML-KEM-768", "(FIPS", "203)", "suite", "to", "close",
     "the", "harvest-now-decrypt-later", "gap."]

  const L3_HEAD: seq<string> :=
    ["on", "the", "running", "epoch-ratchet,", "FS", "+", "PCS,", "hybrid", "X25519+ML-KEM-768", "rekey",
     "per", "epoch", ""]

  const L3_TAIL: seq<string> :=
    [".", "Each", "epoch", "re-derives", "the", "chain", "from", "a", "fresh", "hybrid-KEM", "secret,", "so",
     "a", "compromised", "key", "neither", "decrypts", "past", "epochs", "(forward", "secrecy)", "nor",
     "future", "ones", "once", "healed", "(post-compromise", "security).", "Secure", "while", "EITHER", "the",
     "X25519", "or", "the", "ML-KEM-768", "(FIPS", "203)", "leg", "holds."]

  const L2_OPENING: seq<string> :=
    ["sealed", "with", "a", "stateless", "one-shot", "hybrid", "seal", "—", "PQ", "at", "the", "published", "prekey",
     "only,", "no", "running", "ratchet.", "Forward", "secrecy", "is", "limited", "to", "prekey", "rotation", "(no",
     "per-message/per-epoch", "rekey,", "no", "post-compromise", "security)."]

  const L2_CLOSING: seq<string> :=
    ["Secure", "while", "EITHER", "the", "X25519", "or", "the", "ML-KEM-768", "(FIPS", "203)", "leg", "holds;",
     "upgrade", "to", "the", "L3", "epoch-ratchet", "for", "FS", "+", "PCS."]

  const CONVERSATION_HYBRID: seq<string> :=
    ["negotiated", "the", "hybrid", "KEM:", "the", "body", "symmetric", "key", "is", "wrapped", "via",
     "X25519+ML-KEM-768", "(PQXDH-style", "signed", "prekey)", "and", "AES-256-GCM", "seals", "the", "body.",
     "Negotiated", "suite", "is", "bound", "into", "the", "AEAD", "AAD", "(downgrade-lock).",
     "HNDL-resistant."]

  const CONVERSATION_CLASSICAL: seq<string> :=
    ["on", "the", "CLASSICAL", "PGP", "key-wrap", "(HNDL-exposed).", "Either", "the", "peer", "advertised",
     "no", "hybrid", "prekey", "or", "a", "downgrade", "occurred", "—", "recorded", "honestly.", "Hybrid",
     "engages", "only", "when", "both", "sides", "advertise", "a", "hybrid", "prekey."]

  /** The words of the notes that are as long as a forbidden one: none has a `u`, but one. */
  const LONG_WORDS: seq<string> := [
    "HNDL-exposed:", "retroactively", "decryptable.", "confidentiality"]
  const MORE_LONG_WORDS: seq<string> := [
    "epoch-ratchet,", "compromised", "(post-compromise", "per-message/per-epoch", "post-compromise",
    "epoch-ratchet"]
  const LAST_LONG_WORDS: seq<string> := [
    "(PQXDH-style", "AES-256-GCM", "(downgrade-lock).", "HNDL-resistant."]
  const EXTRA_LONG_WORDS: seq<string> := [
    "(HNDL-exposed).", "X25519+ML-KEM-768", "harvest-now-decrypt-later"]
  const POST_QUANTUM := "post-quantum"

  /** ` with <peer>`, or nothing for no peer. */
  function Who(peer: string): string {
    if peer == "" then "" else " with " + peer
  }

  function ClassicalNote(suite: string, level: RatchetLevel, peer: string): string {
    "DM" + Who(peer) + " " + Spaced(CLASSICAL_HEAD) + "(" + suite + ")" + ClassicalTail(level)
  }

  function ClassicalTail(level: RatchetLevel): string {
    Spaced(CLASSICAL_MID) + " " + (level.AsText() + " " + Spaced(CLASSICAL_TAIL))
  }

  function EpochNote(epoch: U64, peer: string): string {
    "DM" + Who(peer) + " " + EpochText(epoch)
  }

  function EpochText(epoch: U64): string {
    Spaced(L3_HEAD) + "(" + ("epoch " + ToString(epoch)) + ")" + Spaced(L3_TAIL)
  }

  function OneshotNote(peer: string): string {
    "DM" + Who(peer) + " " + (Spaced(L2_OPENING) + " " + Spaced(L2_CLOSING))
  }

  function DmNote(quantumResistant: bool, suite: string, level: RatchetLevel, epoch: U64, peer: string): string {
    if !quantumResistant then ClassicalNote(suite, level, peer)
    else if level.L3Epoch? then EpochNote(epoch, peer)
    else OneshotNote(peer)
  }

  function UpperName(kind: ConversationKind): string {
    if kind.Dm? then "DM" else "ENVELOPE-PAYLOAD"
  }

  function ConversationNote(quantumResistant: bool, kind: ConversationKind, peer: string): string {
    UpperName(kind) + " conversation" + Who(peer) + " "
    + Spaced(if quantumResistant then CONVERSATION_HYBRID else CONVERSATION_CLASSICAL)
  }

  // -- builders ------------------------------------------------------------------------------------

  /** The panic condition of `assert_honest`. */
  ghost predicate AssertHonest(r: SurfaceReport) {
    IsHonestNote(r.note) && (r.status == "classical" ==> !r.quantumResistant)
  }

  function Assemble(rows: Rows, surface: string, component: string, suite: string, note: string): SurfaceReport {
    var r := ResolveSuite(rows, suite);
    SurfaceReport(surface, component, suite, r.status.AsText(), r.quantumResistant, r.primitives, r.fipsRefs, note)
  }

  /** A builder that panics yields nothing. */
  ghost function Checked(r: SurfaceReport): Option<SurfaceReport> {
    if AssertHonest(r) then Some(r) else None
  }

  ghost function DmRatchetSurfaceFor(rows: Rows, negotiated: string, level: RatchetLevel, epoch: U64, peer: string)
    : Option<SurfaceReport>
  {
    var suite := SuiteInUse(negotiated);
    var note := DmNote(ResolveSuite(rows, suite).quantumResistant, suite, level, epoch, peer);
    Checked(Assemble(rows, "dm", "skchat (DmRatchet)", suite, note))
  }

  ghost function ConversationSurfaceFor(rows: Rows, negotiated: string, kind: ConversationKind, peer: string)
    : Option<SurfaceReport>
  {
    var suite := SuiteInUse(negotiated);
    var note := ConversationNote(ResolveSuite(rows, suite).quantumResistant, kind, peer);
    Checked(if kind.Dm? then Assemble(rows, "dm", "skchat (ChatCrypto)", suite, note)
            else Assemble(rows, "envelope-payload", "skcomms (EnvelopeCrypto)", suite, note))
  }

  // -- the screen on built notes ---------------------------------------------------------------------

  predicate Familiar(word: string) {
    || |word| < 11
    || word in LONG_WORDS || word in MORE_LONG_WORDS || word in LAST_LONG_WORDS || word in EXTRA_LONG_WORDS
    || word == POST_QUANTUM
  }

  lemma FamiliarIsHonest(word: string)
    requires Familiar(word)
    ensures IsHonestNote(word)
  {
    hide IsHonestNote;
    LongWordsLackU();
    if |word| < 11 {
      HonestShort(word);
    } else if word == POST_QUANTUM {
      assert 'f' !in POST_QUANTUM && 'F' !in POST_QUANTUM && 'b' !in POST_QUANTUM && 'B' !in POST_QUANTUM;
      OnSightIsHonest(POST_QUANTUM);
    } else {
      OnSightIsHonest(word);
    }
  }

  predicate LackU(words: seq<string>) {
    forall i :: 0 <= i < |words| ==> 'u' !in words[i] && 'U' !in words[i]
  }

  lemma LongWordsLackU()
    ensures LackU(LONG_WORDS) && LackU(MORE_LONG_WORDS) && LackU(LAST_LONG_WORDS) && LackU(EXTRA_LONG_WORDS)
  {
    FirstLackU();
    MoreLackU();
    LastLackU();
    ExtraLackU();
  }

  lemma FirstLackU()
    ensures LackU(LONG_WORDS)
  {
  }

  lemma MoreLackU()
    ensures LackU(MORE_LONG_WORDS)
  {
  }

  lemma LastLackU()
    ensures LackU(LAST_LONG_WORDS)
  {
  }

  lemma ExtraLackU()
    ensures LackU(EXTRA_LONG_WORDS)
  {
  }

  predicate AllFamiliar(words: seq<string>) {
    forall i :: 0 <= i < |words| ==> Familiar(words[i])
  }

  lemma ClassicalWording()
    ensures AllFamiliar(CLASSICAL_HEAD) && AllFamiliar(CLASSICAL_MID)
  {
  }

  lemma ClassicalTailWording()
    ensures AllFamiliar(CLASSICAL_TAIL)
  {
  }

  lemma EpochWording()
    ensures AllFamiliar(L3_HEAD)
  {
  }

  lemma EpochTailWording()
    ensures AllFamiliar(L3_TAIL)
  {
  }

  lemma OneshotOpeningWording()
    ensures AllFamiliar(L2_OPENING)
  {
  }

  lemma OneshotClosingWording()
    ensures AllFamiliar(L2_CLOSING)
  {
  }

  lemma HybridConversationWording()
    ensures AllFamiliar(CONVERSATION_HYBRID)
  {
  }

  lemma ClassicalConversationWording()
    ensures AllFamiliar(CONVERSATION_CLASSICAL)
  {
  }

  lemma FamiliarText(words: seq<string>)
    requires AllFamiliar(words)
    ensures IsHonestNote(Spaced(words))
  {
    hide IsHonestNote, Familiar;
    forall i | 0 <= i < |words| ensures IsHonestNote(words[i]) {
      FamiliarIsHonest(words[i]);
    }
    SpacedHonest(words);
  }

  // -- the screen on built notes ---------------------------------------------------------------------

  /** After an honest opening, the note is decided by the peer and what follows. */
  lemma OpeningHonest(head: string, peer: string, rest: string)
    requires IsHonestNote(head)
    ensures IsHonestNote(head + Who(peer) + " " + rest) <==> IsHonestNote(peer) && IsHonestNote(rest)
  {
    hide IsHonestNote;
    var opening := head + Who(peer);
    assert opening + " " + rest == opening + [' '] + rest;
    HonestSplits(opening, ' ', rest);
    if peer == "" {
      HonestShort("");
      assert opening == head;
    } else {
      assert opening == head + [' '] + ("with" + [' '] + peer);
      HonestSplits(head, ' ', "with" + [' '] + peer);
      HonestSplits("with", ' ', peer);
      HonestShort("with");
    }
  }

  /** A text in parentheses between two honest ones. */
  lemma ParenthesisHonest(before: string, inner: string, after: string)
    requires IsHonestNote(before) && IsHonestNote(after)
    ensures IsHonestNote(before + "(" + inner + ")" + after) <==> IsHonestNote(inner)
  {
    hide IsHonestNote;
    assert before + "(" + inner + ")" + after == (before + ['('] + inner) + [')'] + after;
    HonestSplits(before + ['('] + inner, ')', after);
    HonestSplits(before, '(', inner);
  }

  lemma ClassicalNoteHonest(suite: string, level: RatchetLevel, peer: string)
    ensures IsHonestNote(ClassicalNote(suite, level, peer)) <==> IsHonestNote(peer) && IsHonestNote(suite)
  {
    hide IsHonestNote, Spaced, AllFamiliar, ClassicalTail;
    ClassicalWording();
    FamiliarText(CLASSICAL_HEAD);
    ClassicalTailHonest(level);
    HonestShort("DM");
    var head := Spaced(CLASSICAL_HEAD);
    ParenthesisHonest(head, suite, ClassicalTail(level));
    var rest := head + "(" + suite + ")" + ClassicalTail(level);
    OpeningHonest("DM", peer, rest);
    assert ClassicalNote(suite, level, peer) == "DM" + Who(peer) + " " + rest;
  }

  lemma ClassicalTailHonest(level: RatchetLevel)
    ensures IsHonestNote(ClassicalTail(level))
  {
    hide IsHonestNote, Spaced, AllFamiliar;
    ClassicalWording();
    ClassicalTailWording();
    FamiliarText(CLASSICAL_MID);
    FamiliarText(CLASSICAL_TAIL);
    HonestShort(level.AsText());
    HonestSplits(level.AsText(), ' ', Spaced(CLASSICAL_TAIL));
    HonestSplits(Spaced(CLASSICAL_MID), ' ', level.AsText() + " " + Spaced(CLASSICAL_TAIL));
  }

  lemma DigitsHonest(epoch: U64)
    ensures IsHonestNote("epoch " + ToString(epoch))
  {
    hide IsHonestNote;
    var digits := ToString(epoch);
    assert forall i :: 0 <= i < |digits| ==> digits[i] as int == Decimal(epoch)[i];
    OnSightIsHonest(digits);
    HonestShort("epoch");
    assert "epoch " + digits == "epoch" + [' '] + digits;
    HonestSplits("epoch", ' ', digits);
  }

  lemma EpochNoteHonest(epoch: U64, peer: string)
    ensures IsHonestNote(EpochNote(epoch, peer)) <==> IsHonestNote(peer)
  {
    hide IsHonestNote, EpochText;
    EpochTextHonest(epoch);
    HonestShort("DM");
    OpeningHonest("DM", peer, EpochText(epoch));
  }

  lemma EpochTextHonest(epoch: U64)
    ensures IsHonestNote(EpochText(epoch))
  {
    hide IsHonestNote, Spaced, AllFamiliar, ToString;
    EpochWording();
    EpochTailWording();
    FamiliarText(L3_HEAD);
    FamiliarText(L3_TAIL);
    DigitsHonest(epoch);
    ParenthesisHonest(Spaced(L3_HEAD), "epoch " + ToString(epoch), Spaced(L3_TAIL));
  }

  lemma OneshotNoteHonest(peer: string)
    ensures IsHonestNote(OneshotNote(peer)) <==> IsHonestNote(peer)
  {
    hide IsHonestNote, Spaced, AllFamiliar;
    OneshotOpeningWording();
    OneshotClosingWording();
    FamiliarText(L2_OPENING);
    FamiliarText(L2_CLOSING);
    HonestShort("DM");
    HonestSplits(Spaced(L2_OPENING), ' ', Spaced(L2_CLOSING));
    OpeningHonest("DM", peer, Spaced(L2_OPENING) + " " + Spaced(L2_CLOSING));
  }

  lemma ConversationNoteHonest(quantumResistant: bool, kind: ConversationKind, peer: string)
    ensures IsHonestNote(ConversationNote(quantumResistant, kind, peer)) <==> IsHonestNote(peer)
  {
    hide IsHonestNote, Spaced, AllFamiliar, UpperName;
    HybridConversationWording();
    ClassicalConversationWording();
    FamiliarText(CONVERSATION_HYBRID);
    FamiliarText(CONVERSATION_CLASSICAL);
    ConversationHeadHonest(kind);
    OpeningHonest(UpperName(kind) + " conversation", peer,
                  Spaced(if quantumResistant then CONVERSATION_HYBRID else CONVERSATION_CLASSICAL));
  }

  lemma ConversationHeadHonest(kind: ConversationKind)
    ensures IsHonestNote(UpperName(kind) + " conversation")
  {
    hide IsHonestNote;
    var upper := UpperName(kind);
    assert 'u' !in upper && 'U' !in upper;
    OnSightIsHonest(upper);
    assert 'u' !in "conversation" && 'U' !in "conversation";
    OnSightIsHonest("conversation");
    HonestSplits(upper, ' ', "conversation");
    assert upper + " conversation" == upper + [' '] + "conversation";
  }

  // -- when the builders panic -----------------------------------------------------------------------

  lemma ResistantSuitesAreHonest(suite: string)
    requires ResolveSuite(Seeded(), suite).quantumResistant
    ensures IsHonestNote(suite)
  {
    hide IsHonestNote, ResolveSuite, Seeded;
    SeededSuites(suite);
    SeededIdsAreHonest();
  }

  lemma SeededIdsAreHonest()
    ensures IsHonestNote("aes256-gcm-v1") && IsHonestNote("x25519-mlkem768")
  {
    hide IsHonestNote;
    assert 'u' !in "aes256-gcm-v1" && 'U' !in "aes256-gcm-v1";
    assert 'u' !in "x25519-mlkem768" && 'U' !in "x25519-mlkem768";
    OnSightIsHonest("aes256-gcm-v1");
    OnSightIsHonest("x25519-mlkem768");
  }

  lemma FallbackIsHonest()
    ensures IsHonestNote(DEFAULT_CONVERSATION_SUITE) && IsHonestNote("")
  {
    hide IsHonestNote;
    assert 'u' !in DEFAULT_CONVERSATION_SUITE && 'U' !in DEFAULT_CONVERSATION_SUITE;
    OnSightIsHonest(DEFAULT_CONVERSATION_SUITE);
    HonestShort("");
  }

  /** The DM report is built, rather than panicking, exactly when peer and suite id pass the screen. */
  lemma DmSurfaceBuilds(negotiated: string, level: RatchetLevel, epoch: U64, peer: string)
    ensures DmRatchetSurfaceFor(Seeded(), negotiated, level, epoch, peer).Some?
       <==> IsHonestNote(peer) && IsHonestNote(negotiated)
  {
    hide IsHonestNote, ClassicalNote, EpochNote, OneshotNote, Seeded;
    var suite := SuiteInUse(negotiated);
    FallbackIsHonest();
    ClassicalNoteHonest(suite, level, peer);
    EpochNoteHonest(epoch, peer);
    OneshotNoteHonest(peer);
    if ResolveSuite(Seeded(), suite).quantumResistant {
      ResistantSuitesAreHonest(suite);
    }
  }

  /** The conversation report is built exactly when the peer passes, whatever the suite is called. */
  lemma ConversationSurfaceBuilds(rows: Rows, negotiated: string, kind: ConversationKind, peer: string)
    ensures ConversationSurfaceFor(rows, negotiated, kind, peer).Some? <==> IsHonestNote(peer)
  {
    hide IsHonestNote, ConversationNote;
    ConversationNoteHonest(ResolveSuite(rows, SuiteInUse(negotiated)).quantumResistant, kind, peer);
  }

  // -- what is reported ------------------------------------------------------------------------------

  /** What the process-wide registry says of any suite id: the hybrid and the symmetric suite resist,
      and whatever is not registered counts as classical. */
  lemma SeededSuites(id: string)
    ensures var x := ResolveSuite(Seeded(), id);
            && (x.quantumResistant <==> id == "x25519-mlkem768" || id == "aes256-gcm-v1")
            && (x.status == if id == "x25519-mlkem768" then HybridPq
                            else if id == "aes256-gcm-v1" then Symmetric else Classical)
  {
    hide Seeded;
    SeededRows();
    DifferentIds();
  }

  /** The primitives and standards that a report lists for it. */
  lemma SeededReferences(id: string)
    ensures var x := ResolveSuite(Seeded(), id);
            && (id == "x25519-mlkem768" ==>
                 && x.primitives == ["X25519 (ephemeral-static DHKEM)", "ML-KEM-768 (FIPS 203, liboqs)",
                                     "HKDF-SHA256 concat-KDF combiner"]
                 && x.fipsRefs == ["FIPS 203", "RFC 7748", "RFC 5869"])
            && (id == "aes256-gcm-v1" ==>
                 && x.primitives == ["AES-256-GCM", "HKDF-SHA256"]
                 && x.fipsRefs == ["FIPS 197", "SP 800-38D", "SP 800-108"])
            && (id == "x25519-pgp-wrap-v1" ==>
                 && x.primitives == ["X25519 (Curve25519) PGP key-wrap", "AES-256 session key"]
                 && x.fipsRefs == ["RFC 7748", "RFC 9580"])
            && (id !in Seeded() ==> x.primitives == ["unknown"] && x.fipsRefs == [])
  {
    hide Seeded;
    SeededRows();
  }

  /** The suite a report names: the negotiated one, or the classical one when none is given. */
  function Reported(negotiated: string): string {
    if |negotiated| == 0 then "x25519-pgp-wrap-v1" else negotiated
  }

  /** The surface, over the process-wide registry, but for its place and its note. */
  predicate TellsTheTruth(r: SurfaceReport, negotiated: string) {
    && r.activeSuite == Reported(negotiated)
    && (r.quantumResistant <==> negotiated == "x25519-mlkem768" || negotiated == "aes256-gcm-v1")
    && r.status == (if negotiated == "x25519-mlkem768" then "hybrid-pq"
                    else if negotiated == "aes256-gcm-v1" then "symmetric" else "classical")
    && r.primitives == ResolveSuite(Seeded(), Reported(negotiated)).primitives
    && r.fipsRefs == ResolveSuite(Seeded(), Reported(negotiated)).fipsRefs
  }

  /** What a DM report says for any negotiated suite, level, epoch and peer. */
  lemma DmSurfaceReports(negotiated: string, level: RatchetLevel, epoch: U64, peer: string)
    requires DmRatchetSurfaceFor(Seeded(), negotiated, level, epoch, peer).Some?
    ensures var r := DmRatchetSurfaceFor(Seeded(), negotiated, level, epoch, peer).value;
            && TellsTheTruth(r, negotiated)
            && r.surface == "dm" && r.component == "skchat (DmRatchet)"
            && r.note == if r.status == "classical" then ClassicalNote(r.activeSuite, level, peer)
                         else if level == L3Epoch then EpochNote(epoch, peer)
                         else OneshotNote(peer)
  {
    hide Seeded, ClassicalNote, EpochNote, OneshotNote, IsHonestNote;
    SeededSuites(Reported(negotiated));
    StatusTable(ResolveSuite(Seeded(), Reported(negotiated)).status);
    FallbackIsClassical();
  }

  /** What a conversation report says for any negotiated suite, kind and peer. */
  lemma ConversationSurfaceReports(negotiated: string, kind: ConversationKind, peer: string)
    requires ConversationSurfaceFor(Seeded(), negotiated, kind, peer).Some?
    ensures var r := ConversationSurfaceFor(Seeded(), negotiated, kind, peer).value;
            && TellsTheTruth(r, negotiated)
            && (kind == Dm ==> r.surface == "dm" && r.component == "skchat (ChatCrypto)")
            && (kind == Envelope ==> r.surface == "envelope-payload" && r.component == "skcomms (EnvelopeCrypto)")
            && r.note == ConversationNote(r.status != "classical", kind, peer)
  {
    hide Seeded, ConversationNote, IsHonestNote;
    SeededSuites(Reported(negotiated));
    StatusTable(ResolveSuite(Seeded(), Reported(negotiated)).status);
    FallbackIsClassical();
  }

  // -- how the notes begin ---------------------------------------------------------------------------

  /** The peer in a note, if there is one. */
  function Naming(peer: string): string {
    if |peer| == 0 then "" else " with " + peer
  }

  /** Which wording each note has, and where suite, level, epoch and peer stand in it. */
  lemma ClassicalNoteShape(suite: string, level: RatchetLevel, peer: string)
    ensures ClassicalNote(suite, level, peer) ==
      "DM" + Naming(peer) + " " + Spaced(["on", "the", "CLASSICAL", "PGP", "key-wrap", ""]) + "(" + suite + ")"
      + (Spaced(CLASSICAL_MID) + " "
         + ((if level == L3Epoch then "L3-epoch" else "L2-oneshot") + " " + Spaced(CLASSICAL_TAIL)))
  {
    hide Spaced;
  }

  lemma ResistantNoteShapes(epoch: U64, peer: string)
    ensures EpochNote(epoch, peer) ==
      "DM" + Naming(peer) + " " + (Spaced(L3_HEAD) + "(" + ("epoch " + ToString(epoch)) + ")" + Spaced(L3_TAIL))
    ensures OneshotNote(peer) == "DM" + Naming(peer) + " " + (Spaced(L2_OPENING) + " " + Spaced(L2_CLOSING))
    ensures L3_HEAD[..4] == ["on", "the", "running", "epoch-ratchet,"]
    ensures L2_OPENING[..5] == ["sealed", "with", "a", "stateless", "one-shot"]
  {
    hide Spaced, ToString;
  }

  lemma ConversationNoteShapes(quantumResistant: bool, kind: ConversationKind, peer: string)
    ensures ConversationNote(quantumResistant, kind, peer) ==
      (if kind == Envelope then "ENVELOPE-PAYLOAD" else "DM") + " conversation" + Naming(peer) + " "
      + Spaced(if quantumResistant then CONVERSATION_HYBRID else CONVERSATION_CLASSICAL)
    ensures CONVERSATION_HYBRID[..4] == ["negotiated", "the", "hybrid", "KEM:"]
    ensures CONVERSATION_CLASSICAL[..4] == ["on", "the", "CLASSICAL", "PGP"]
  {
    hide Spaced;
  }

  lemma FallbackIsClassical()
    ensures "x25519-pgp-wrap-v1" != "x25519-mlkem768" && "x25519-pgp-wrap-v1" != "aes256-gcm-v1"
    ensures "" != "x25519-mlkem768" && "" != "aes256-gcm-v1"
    ensures "classical" != "hybrid-pq" && "classical" != "symmetric"
  {
    DifferentIds();
    assert |"classical"| == 9 && "classical"[0] == 'c' && "hybrid-pq"[0] == 'h' && "symmetric"[0] == 's';
  }

  // -- the whole report ------------------------------------------------------------------------------

  datatype Claim = AllResistant | NotEndToEnd | OnlySymmetric

  datatype Summary = Summary(total: nat, quantumResistant: nat, classical: nat, symmetric: nat)

  function CountResistant(xs: seq<SurfaceReport>): nat {
    if xs == [] then 0 else (if xs[0].quantumResistant then 1 else 0) + CountResistant(xs[1..])
  }

  function CountStatus(xs: seq<SurfaceReport>, status: string): nat {
    if xs == [] then 0 else (if xs[0].status == status then 1 else 0) + CountStatus(xs[1..], status)
  }

  function Summarize(xs: seq<SurfaceReport>): Summary {
    Summary(|xs|, CountResistant(xs), CountStatus(xs, "classical"), CountStatus(xs, "symmetric"))
  }

  function HonestClaim(xs: seq<SurfaceReport>): Claim {
    if |xs| > 0 && CountResistant(xs) == |xs| then AllResistant
    else if exists i :: 0 <= i < |xs| && xs[i].status == "classical" then NotEndToEnd
    else OnlySymmetric
  }

  /** The surface came out of one of the two builders, over some registry. */
  ghost predicate Built(r: SurfaceReport) {
    || (exists rows: Rows, negotiated, level, epoch: U64, peer ::
          DmRatchetSurfaceFor(rows, negotiated, level, epoch, peer) == Some(r))
    || (exists rows: Rows, negotiated, kind, peer :: ConversationSurfaceFor(rows, negotiated, kind, peer) == Some(r))
  }

  /** A built surface is quantum-resistant exactly when it is not classical. */
  lemma BuiltStatus(r: SurfaceReport)
    requires Built(r)
    ensures r.quantumResistant <==> r.status != "classical"
    ensures AssertHonest(r)
  {
    hide IsHonestNote, DmNote, ConversationNote;
    if rows: Rows, negotiated, level, epoch: U64, peer :|
        DmRatchetSurfaceFor(rows, negotiated, level, epoch, peer) == Some(r) {
      StatusOf(rows, SuiteInUse(negotiated));
    } else {
      var rows: Rows, negotiated, kind, peer :| ConversationSurfaceFor(rows, negotiated, kind, peer) == Some(r);
      StatusOf(rows, SuiteInUse(negotiated));
    }
  }

  lemma StatusOf(rows: Rows, suite: string)
    ensures var x := ResolveSuite(rows, suite); x.quantumResistant <==> x.status.AsText() != "classical"
  {
    assert "hybrid-pq" != "classical" && "pq" != "classical" && "symmetric" != "classical" by {
      assert "hybrid-pq"[0] == 'h' && "pq"[0] == 'p' && "symmetric"[0] == 's' && "classical"[0] == 'c';
    }
  }

  lemma {:induction false} CountsAddUp(xs: seq<SurfaceReport>)
    requires forall i :: 0 <= i < |xs| ==> Built(xs[i])
    ensures CountResistant(xs) + CountStatus(xs, "classical") == |xs|
    ensures CountStatus(xs, "symmetric") <= CountResistant(xs)
    ensures CountStatus(xs, "classical") > 0 <==> exists i :: 0 <= i < |xs| && xs[i].status == "classical"
  {
    hide Built;
    if xs != [] {
      BuiltStatus(xs[0]);
      assert "symmetric"[0] != "classical"[0];
      CountsAddUp(xs[1..]);
      assert xs == [xs[0]] + xs[1..];
    }
  }

  /** The positions of the surfaces with that status. */
  function WithStatus(xs: seq<SurfaceReport>, status: string): set<nat> {
    set i: nat | i < |xs| && xs[i].status == status
  }

  /** The counts of a report are the numbers of its surfaces of each kind. */
  lemma {:induction false} CountsAreNumbers(xs: seq<SurfaceReport>, status: string)
    ensures CountStatus(xs, status) == |WithStatus(xs, status)|
  {
    if xs == [] {
      assert WithStatus(xs, status) == {};
    } else {
      var moved := Moved(WithStatus(xs[1..], status));
      CountsAreNumbers(xs[1..], status);
      MovedSize(WithStatus(xs[1..], status));
      FirstAndRest(xs, status);
      assert 0 !in moved;
    }
  }

  lemma FirstAndRest(xs: seq<SurfaceReport>, status: string)
    requires xs != []
    ensures WithStatus(xs, status)
         == Moved(WithStatus(xs[1..], status)) + (if xs[0].status == status then {0} else {})
  {
    var (all, rest) := (WithStatus(xs, status), WithStatus(xs[1..], status));
    forall i: nat ensures i in all <==> i in Moved(rest) || (i == 0 && xs[0].status == status) {
      if 0 < i < |xs| {
        assert xs[1..][i - 1] == xs[i];
        assert i - 1 in rest <==> i in all;
      }
    }
  }

  function Moved(s: set<nat>): set<nat> {
    set i | i in s :: i + 1
  }

  lemma {:induction false} MovedSize(s: set<nat>)
    ensures |Moved(s)| == |s|
  {
    if s == {} {
      assert Moved(s) == {};
    } else {
      var x :| x in s;
      MovedSize(s - {x});
      forall y: nat ensures y in Moved(s) <==> y in Moved(s - {x}) || y == x + 1 {
        if y in Moved(s) {
          var i :| i in s && y == i + 1;
          assert i == x || i in s - {x};
        }
      }
      assert Moved(s) == Moved(s - {x}) + {x + 1};
    }
  }

  /** Every surface is resistant or classical, symmetric ones are resistant; the end-to-end denial
      is made exactly with a classical surface, the only-symmetric claim exactly with none at all. */
  lemma ReportConserves(xs: seq<SurfaceReport>)
    requires forall i :: 0 <= i < |xs| ==> Built(xs[i])
    ensures var s := Summarize(xs);
            && s.quantumResistant + s.classical == s.total == |xs|
            && s.classical == |WithStatus(xs, "classical")|
            && s.symmetric == |WithStatus(xs, "symmetric")| <= s.quantumResistant
            && (HonestClaim(xs) == NotEndToEnd <==> s.classical > 0)
            && (HonestClaim(xs) == OnlySymmetric <==> xs == [])
            && (HonestClaim(xs) == AllResistant <==> xs != [] && s.classical == 0)
  {
    hide Built, WithStatus;
    CountsAddUp(xs);
    CountsAreNumbers(xs, "classical");
    CountsAreNumbers(xs, "symmetric");
  }
}
