# sk-pqc-rs, modelled and proved

A Dafny model of the parts of the `sk-pqc-rs` crate that decide what a message means: the ratcheted
DM session, the canonical JSON encoder with the routing envelope built on it, the downgrade lock of
the one-shot seal, the wire codecs, the domain-separation labels, the honest-report screen and the
suite registry. `dafny verify dfyconfig.toml` checks all of it.

Text is a sequence of Unicode scalar values, as a Rust `str` is; bytes are integers below 256; `u64`
and `u32` are bounded integers whose wrap-around and truncating casts are written out. Cryptographic
primitives are parameters (`Crypto.Primitives`). Every random draw and clock reading is an argument,
so a statement about all arguments covers every draw and every clock. Round trips assume only that
decapsulation and decryption undo encapsulation and encryption (`Crypto.Correct`). "Opens only if"
statements use a ledger of what was sealed, either as an ideal AEAD (`Crypto.Ideal`) or as a correct one that
commits recorded ciphertexts to their key (`Crypto.Committing`), never an injective hash or tag. Each
assumption comes with an instance that meets it.

## How the modules follow the crate

| modules | crate |
|---|---|
| `Kem`, `Ratchet`, `GroupRatchet`, `Labels` | `src/kem.rs`, `src/ratchet.rs`, the labels of `src/group_ratchet.rs`, and how the labels of all modules differ |
| `DmSession`, `DmToken` | the `DmSession` object of `src/dm_session.rs` method by method, and its token with the parser's cursor |
| `DmState`, `DmSlots`, `DmClock`, `DmMixed`, `DmSnapshot`, `DmNonce` | the same session as a state machine, and what holds over its runs |
| `DmNetwork`, `DmTwoWay`, `DmWrap` | two such sessions over a network that loses, reorders and repeats frames |
| `Json`, `JsonLaws`, `JsonPrefix`, `JsonCanonical`, `Canonical`, `PqRoute` | `src/pqroute.rs`: printer, an RFC 8259 reader, what canonical text is, the encoder as it appends to a buffer, the envelope |
| `PqDm`, `AnonQueue`, `Report` with `HonestText`, `Suites` | the files of the same names |
| `Wire` | the crate's interop contract (README.md:59-95), byte for byte, and which error every opener gives |
| `Basics`, `Order`, `Utf8`, `Digits`, `Base64`, `Crypto` | what the standard library and the dependencies do, as far as it is relied on |

The stateful parts are classes and buffer-filling methods whose `ensures` give the new state or the
output as a function of the old; the theorems are about those functions.

## What the proofs found

- **Slots run out.** A session's `(epoch, index)` slots never repeat as long as at most 2^64 epochs are
  begun, and do repeat from the first one on after that: `r.epoch + 1` wraps in a release build
  (`src/dm_session.rs:313`). `DmSlots.SlotsRepeatOnlyByWrap` is the exact condition, and
  `DmSlots.SlotsDoRepeat` a family of runs that crosses it at seal number 2^64 + 1 and not before.
  One-way delivery ends there too (`DmWrap.DeliveryEndsAtWrap`, with a run that gets there in
  `DmWrap.DeliveryDoesEnd`).
- **Two-way use of one session.** `begin_epoch` overwrites the shared secret store and `open` does not
  (`src/dm_session.rs:282` and `375-382`). An inbound frame is decided by the session's own secret exactly when its
  epoch number has been begun locally, and its KAM is then not looked at (`DmMixed.InboundDecision`).
  So between two sessions that both send, a frame opens exactly when the receiver has not begun its epoch and
  has or gets the KAM (`DmTwoWay.TwoWay`). If each seals just once before hearing from the other, each refuses
  the other's frame (`DmTwoWay.ForeignEpochRefused`).
- **The pqdm AAD is not always ASCII-escaped.** README.md:115-119 of the crate says both AADs escape
  non-ASCII text. `downgrade_lock_aad` prints with `serde_json`, which does not: the claim holds exactly
  when suite, sender and recipient stay at or below U+007E (`PqDm.AadIsCanonical`).
- **Nesting and length.** `canonical` prints any depth, the reader stops at its nesting limit, and lengths are cast
  to `u32`. A header or metadata value beyond either limit can be sealed but not opened again, and never
  reads as another value (`PqRoute.RouteRoundTrip`, `JsonPrefix.CastDocument`). The nesting limit is a parameter here.
- **Nonce length.** `from_token` accepts a frame whose nonce is not 12 bytes; `open` then panics
  (`src/dm_session.rs:393`) exactly when the epoch's secret is known or comes with the frame, and that secret
  is stored by then (`DmNonce.PanicsExactly`, with tokens that do it in `DmNonce.BareTokenPanics` and
  `DmNonce.BareTokenStoresSecret`). No frame that a session seals does this (`DmNetwork.FramesTravel`).
- **"Only symmetric".** The comment at `src/report.rs:324-328` reserves the last claim for lists of symmetric
  surfaces. Symmetric suites count as quantum-resistant, so the claim is made exactly for the empty list
  (`Report.ReportConserves`).
- **Seal takes no suite.** The usage sketch at README.md:146 of the crate passes a suite to `pqdm::seal`; the code
  has no such parameter and always locks to the hybrid suite, as the model does.
- **Snapshots.** A snapshot leaves out the ratchet's secret and bounds, so restoring it is the identity
  exactly on states where these are the session's own (`DmSnapshot.SnapshotIsFaithful`). Every state reached through
  the methods is one. The bounds are public fields, though: a caller who writes them and then restores a
  snapshot brings the new bounds into the current epoch, which otherwise keeps its old ones
  (`DmSnapshot.RestartsAfterWrites`, `DmSnapshot.WrittenBounds`).

## Model

| member | source | states |
|---|---|---|
| DmSession.DmSession.WithBounds | src/dm_session.rs:260-273 | a new session is empty and satisfies the invariant |
| DmSession.DmSession.New | src/dm_session.rs:255-257 | a session with the default bounds of 50 messages and seven days |
| DmSession.DmSession.BeginEpoch | src/dm_session.rs:278-291 | on a failed wrap the whole session is as before; else secret, ratchet and KAM are the new epoch's |
| DmSession.DmSession.Seal | src/dm_session.rs:306-354 | state and result are those of the state machine's seal; a valid session stays valid |
| DmSession.DmSession.Open | src/dm_session.rs:370-400 | state and result are those of the state machine's open; a valid session stays valid |
| DmSession.DmSession.Save | src/dm_session.rs:409-432 | the saved JSON value, whatever order the hash map yields its entries in |
| DmSession.DmSession.Rebuild | src/dm_session.rs:440-508 | the rebuilt object has the state that the saved value describes, or the same error |
| DmSession.SaveSecrets | src/dm_session.rs:410-414 | the loop over the secret store saves every secret as hex under its decimal epoch |
| DmSession.LoadEntries | src/dm_session.rs:458-470 | the insertion loop stops at the first malformed entry and otherwise reads all |
| DmState.SealCoherent | src/dm_session.rs:306-354 | a seal keeps the session invariant and moves the epoch on exactly when it begins one |
| DmState.OpenCoherent | src/dm_session.rs:370-400 | an open keeps the invariant and never touches the ratchet or the KAM |
| DmState.RunCoherent | src/dm_session.rs:278-400 | the invariant holds after every sequence of seals and opens |
| DmState.NextEpochCounts | src/dm_session.rs:311-318 | along every run epochs are numbered by how many were begun, modulo 2^64 |
| DmSlots.FrameCarriesSlot | src/dm_session.rs:320-353 | an emitted frame carries its slot and has the KAM exactly at indices 0 to 2; a failed rekey changes nothing at all |
| DmSlots.SlotAdvances | src/dm_session.rs:311-324 | the next slot is above the last one unless a rekey is due in the last epoch number, in which case it is not |
| DmSlots.SlotsAdvance | src/dm_session.rs:306-354 | along every run from a coherent state the slots advance by epoch ordinal and index; numbers are the ordinals modulo 2^64 and every index is below the epoch size |
| DmSlots.SlotsRepeatOnlyByWrap | src/dm_session.rs:311-318 | for every run and clock: slots are distinct, and increasing, if and only if at most 2^64 epochs are begun |
| DmSlots.SlotsDoRepeat | src/dm_session.rs:311-318 | n seals of a session with message bound 0 use n distinct slots iff n is at most 2^64 |
| DmSlots.WrapReusesFirstSlot | src/dm_session.rs:313 | the epoch after the last number is number 0 again, starting at slot (0, 0) |
| DmClock.RatchetFollowsTrace | src/ratchet.rs:330-344 | along every run the ratchet stands one past the last slot, and its start is the clock reading of the event that began the epoch |
| DmClock.NextSlot | src/dm_session.rs:311-324 | which slot a seal gets after any calls, by the trace alone: a new epoch iff the current one has used its messages, or the clock is the age bound past the reading it began with; nothing if the wrap then fails |
| DmClock.SlotClosedForm | src/dm_session.rs:311-330 | when no seal's clock reaches the age bound the n-th slot is (n / m, n % m), its epoch number modulo 2^64, whatever is opened in between |
| DmClock.KamCountClosedForm | src/dm_session.rs:326-330 | how many of the first n slots of that form carry the KAM |
| DmClock.KamsSent | src/dm_session.rs:326-330 | after n slots the KAM has been due (n / m) * min(3, m) + min(3, n % m) times |
| DmMixed.StoreHistory | src/dm_session.rs:278-400 | after any interleaving the store holds the latest own secret of each begun epoch number and else the first KAM accepted |
| DmMixed.OwnEpochs | src/dm_session.rs:278-291 | the ratchet has the number and the secret of the epoch begun last, along every run |
| DmMixed.InboundDecision | src/dm_session.rs:370-400 | which secret decides an inbound frame after any interleaving, and every outcome it has |
| DmNetwork.InvariantHolds | src/dm_session.rs:306-400 | over every run of two sessions, with any bounds, sends, losses, repeats and reorderings: each frame is sealed under its sender's own secret, and beyond its own epochs a receiver knows exactly the announced ones, by the sender's secrets |
| DmNetwork.EachSideRuns | src/dm_session.rs:306-400 | each side of the network is a run of one session, so the theorems about runs hold of it |
| DmNetwork.SealKeeps | src/dm_session.rs:306-354 | sealing adds a frame that the sender's own secret opens and whose KAM unwraps to it, and touches no other secret |
| DmNetwork.GenuineOpens | src/dm_session.rs:370-400 | every case of delivering a genuine frame: state and result |
| DmNetwork.Delivery | src/dm_session.rs:306-400 | what any frame does at the other side after any run: the receiver's own secret decides in an epoch it has begun; else the frame opens to its plaintext iff it carries a KAM or a KAM frame of its epoch arrived, and is otherwise refused as missing the secret with nothing changed |
| DmNetwork.OneWay | src/dm_session.rs:306-400 | a side that never seals holds a part of the other's secrets, and opens a frame iff it carries a KAM or its epoch was announced |
| DmNetwork.FramesTravel | src/dm_session.rs:154-234 | a sealed frame survives its token iff the plaintext with its tag is below 2^32 bytes, and makes no session panic |
| DmTwoWay.TwoWay | src/dm_session.rs:278-400 | when both sides send and their keys for common slots differ: a frame opens to its plaintext iff the receiver has not begun its epoch and has or gets the KAM; in an epoch begun on both sides it is refused |
| DmTwoWay.ForeignEpochRefused | src/dm_session.rs:375-399 | two new sessions each seal once under different secrets: each refuses the other's frame although it carries its KAM |
| DmWrap.DeliveryEndsAtWrap | src/dm_session.rs:311-318 | after 2^64 epochs the next frame reuses number 0 and is refused by a receiver that learnt the first epoch 0 |
| DmWrap.DeliveryDoesEnd | src/dm_session.rs:311-318 | a run of 2^64 seals by one side only, after which the next frame, with its KAM, is refused |
| Crypto.CommittedInstance | src/dm_session.rs:388-399 | for every ledger there are correct primitives that commit its ciphertexts to their keys |
| DmNonce.PanicsExactly | src/dm_session.rs:370-399 | `open` panics iff the nonce is not 12 bytes and the epoch's secret is known or comes with the frame; only that secret has been stored then |
| DmNonce.AcceptedTokenPanics | src/dm_session.rs:181-399 | for every accepted token: `open` does not panic on its frame iff the nonce has 12 bytes or no secret can be had for the epoch |
| DmNonce.BareTokenPanics | src/dm_session.rs:181-399 | a token without a nonce is accepted and panics in every session that knows its epoch |
| DmNonce.BareTokenStoresSecret | src/dm_session.rs:375-399 | in a new session such a token with a KAM leaves the KAM's secret stored and panics |
| DmSnapshot.RestoreOfSnapshot | src/dm_session.rs:409-508 | what any state at all comes back as after saving and restoring |
| DmSnapshot.SavedDocument | src/dm_session.rs:409-432 | the saved document field by field |
| DmSnapshot.SavedSecretEntries | src/dm_session.rs:410-414 | one entry per epoch, in hex under its decimal number, and no other |
| DmSnapshot.RestoreAccepts | src/dm_session.rs:440-508 | exactly which documents restore |
| DmSnapshot.RestoreGives | src/dm_session.rs:440-508 | what they give, and the one error of all others |
| DmSnapshot.SnapshotIsFaithful | src/dm_session.rs:409-508 | restoring a snapshot is the identity iff the ratchet's secret and bounds are the session's own |
| DmSnapshot.RestartsAreInvisible | src/dm_session.rs:409-508 | a run of the methods, saved and restored at any points, ends in the state of the uninterrupted run |
| DmSnapshot.RestartsAfterWrites | src/dm_session.rs:241-251 | after any calls, restarts and writes to the public fields a restart succeeds, and is the identity iff the bounds are those the current epoch was begun with |
| DmSnapshot.WrittenBounds | src/dm_session.rs:492-504 | written bounds wait for the next epoch, unless a restart brings them into the current one |
| DmSnapshot.ReadSavedSecrets | src/dm_session.rs:458-470 | reading back saved secrets in any order of their keys gives all of them |
| DmToken.BuildToken | src/dm_session.rs:154-173 | the appended buffer is the frame's binary form |
| DmToken.ParseToken | src/dm_session.rs:181-234 | the cursor parser computes the frame that the blob spells; the cursor stays in the blob |
| DmToken.TakeAt | src/dm_session.rs:189-201 | a chunk at the cursor, which only moves forward and never leaves the blob |
| DmToken.TokenRoundTrip | src/dm_session.rs:154-234 | parsing a frame's token gives the frame back iff its fields are below 2^32 bytes |
| DmToken.TokenOnto | src/dm_session.rs:181-234 | every accepted token is the token of the frame it parses to |
| DmToken.KamRoundTrip | src/dm_session.rs:162-221 | an absent and an empty KAM stay apart, and a KAM survives iff its length does |
| Ratchet.WrapUnwrap | src/ratchet.rs:208-286 | the peer unwraps exactly the wrapped epoch secret; which errors a wrap can have |
| Ratchet.DmRatchet.NextOutboundKey | src/ratchet.rs:362-368 | index and key of the next message; only the counter moves, by one modulo 2^64 |
| Kem.EncapDecap | src/kem.rs:137-203 | decapsulation with the matching key gives the encapsulated secret; key and ciphertext lengths |
| Kem.KeyParts | README.md:62-65 | key layouts: the X25519 part first, then the ML-KEM part, with their lengths |
| Kem.EncapParts | src/kem.rs:94-166 | the hybrid secret is derived from the X25519 and the ML-KEM secret in that order under the combiner's label; ciphertext layout and every error |
| Kem.DecapParts | src/kem.rs:173-203 | the same on the opening side, with both length errors |
| Kem.BothHalvesCount | src/kem.rs:94-105 | with an injective key derivation equal hybrid secrets come from equal X25519 and equal ML-KEM secrets |
| Crypto.ToyIsCorrect | src/kem.rs:108-203 | the correctness assumptions about the primitives have an instance |
| Crypto.IdealInstance | src/dm_session.rs:388-399 | the ideal AEAD has an instance for every ledger |
| Labels.SitesUseTheirLabels | src/pqdm.rs:189-202 | each modelled key derivation is HKDF of its input key, for the combiner both secrets, with the salt and info listed for its site |
| Labels.SaltTable | README.md:68-92 | the salts of all sites as the interop contract lists them |
| Labels.DmInfoTable | README.md:68-88 | the infos of the combiner and the DM ratchet, letter by letter |
| Labels.GroupInfoTable | README.md:89-90 | the infos of the group ratchet |
| Labels.SealInfoTable | README.md:91-92 | the infos of the one-shot and the routing seal, with the associated data folded in |
| Labels.LabelsSeparate | src/ratchet.rs:109-162 | the salt, even zero-padded to the HMAC block, and the info determine the deriving site and its epoch, index, parties or header |
| Labels.FrameAadInjective | src/dm_session.rs:70-77 | the AAD of a frame determines its epoch and index |
| Wire.WrappedSecret | src/ratchet.rs:208-235 | the wrapped secret: its parts, its label, and every error in order |
| Wire.UnwrapOutcome | src/ratchet.rs:261-286 | which payloads are looked into, and which check gives which error |
| Wire.SealedFrame | src/dm_session.rs:320-353 | a frame is its plaintext under the key of its slot and the slot's associated data, with the KAM at indices 0 to 2 |
| Wire.SealErrors | src/dm_session.rs:311-345 | how a seal fails, and what has changed then |
| Wire.MovedFrameRefused | src/dm_session.rs:66-77 | a frame moved to another slot is refused by whoever holds a secret for that slot |
| Wire.TokenLayout | src/dm_session.rs:139-173 | the token's scheme and the fields of its binary form in order, with their length casts |
| Wire.TokenErrors | src/dm_session.rs:181-234 | exactly the tokens of frames are accepted, all else gives one error |
| Wire.SealedBody | src/pqdm.rs:231-269 | the one-shot seal: its suite, label, parts and errors |
| Wire.OpenSealedErrors | src/pqdm.rs:301-339 | which error opening gives for which cause |
| Wire.Envelope | src/pqroute.rs:22-38 | the routing envelope byte for byte, with its labels and errors |
| Wire.OpenRoutedErrors | src/pqroute.rs:403-463 | format errors are exactly malformed blobs and headers; all else fails to open |
| Wire.HeaderErrors | src/pqroute.rs:360-383 | when reading and replacing a header succeed, and their one error |
| Wire.SplitDomain | src/pqroute.rs:468-485 | which blobs split, and where |
| Wire.AddressText | src/anon_queue.rs:171-183 | an address is scheme, relay, slash and 22 characters |
| Wire.EncodeErrors | src/anon_queue.rs:171-183 | why encoding an address fails, in order |
| Wire.DecodeErrors | src/anon_queue.rs:195-219 | why decoding fails: no address, no base64, or a wrong length |
| Labels.EpochOfPadded | src/group_ratchet.rs:161-180 | padding a salt hides no epoch |
| Json.SortGivesSortedKeys | src/pqroute.rs:178-195 | sorting the keys of a map gives one listing, whatever order they came in |
| Json.SortedKeysByCodePoint | src/pqroute.rs:178-195 | emitted keys strictly increase by code point |
| Basics.BigEndianAt | src/dm_session.rs:156-161 | byte i of a big-endian field is the digit of its place, the highest first |
| Utf8.DecodeEncodeChar | src/pqdm.rs:163-178 | a UTF-8 encoded scalar value decodes to itself and leaves what follows |
| Utf8.EncodingForms | src/pqdm.rs:163-178 | lengths, lead bytes and payload bits of UTF-8 by the table of RFC 3629 |
| Utf8.EncodeInjective | src/pqdm.rs:163-178 | different texts have different UTF-8 bytes |
| Utf8.ByteOrderIsCodePointOrder | src/pqroute.rs:178-195 | byte-wise order of UTF-8 is order by code points |
| Order.LexMeans | src/pqroute.rs:178-182 | what the order means: smaller at the first difference, or ended there |
| JsonLaws.SurrogatePairRoundTrip | src/pqroute.rs:215-239 | a scalar value above U+FFFF is recovered from its surrogate pair |
| JsonLaws.CharsRoundTrip | src/pqroute.rs:200-229 | the reader undoes every escape of a string, in either encoding |
| JsonLaws.ReadPrinted | src/pqroute.rs:155-239 | the reader gives back value and suffix of printed bytes iff the value nests within its limit |
| JsonLaws.PrintSelfDelimiting | src/pqroute.rs:155-197 | a printed value can be told from what follows it |
| JsonLaws.PrintInjective | src/pqroute.rs:155-197 | different JSON values print to different bytes |
| JsonPrefix.ValueMore | src/pqroute.rs:488-490 | what a reader finds does not depend on the bytes after it, but for a number at the very end |
| JsonPrefix.CutOff | src/pqroute.rs:155-197 | no proper prefix of a printed value other than a number parses |
| JsonPrefix.NothingBehind | src/pqroute.rs:488-490 | a printed value with bytes behind it is no document |
| JsonPrefix.CastDocument | src/pqroute.rs:345-347 | behind a length cast to `u32` the reader finds the printed value iff its length survived and it nests within the limit, and nothing otherwise |
| JsonLaws.CanonicalPrintable | src/pqroute.rs:200-239 | every byte of a canonical encoding is printable ASCII |
| JsonLaws.EncodersAgree | src/pqroute.rs:155-239 | the canonical and the `serde_json` encodings agree iff all text stays at or below U+007E |
| JsonCanonical.CanonicalText | src/pqroute.rs:140-239 | an independent recogniser of canonical text (sorted keys, shortest escapes, lower-case hex): text it accepts that reads as v is the print of v, and every print is accepted |
| JsonCanonical.ValueIs | src/pqroute.rs:161-197 | what the recogniser accepts and the reader reads is the printed value and the same rest |
| JsonCanonical.ValueRecognised | src/pqroute.rs:161-197 | every printed value is accepted, whatever follows it |
| Canonical.PushUnicodeEscape | src/pqroute.rs:232-239 | appends the escape of one code unit |
| Canonical.EncodeStringAscii | src/pqroute.rs:200-229 | appends the quoted string, which `JsonLaws.StringRoundTrip` shows to be readable |
| Canonical.CanonicalInto | src/pqroute.rs:161-197 | appends exactly the printed value, for every value and buffer |
| Canonical.ItemsInto | src/pqroute.rs:168-177 | the element loop appends the items, separated by commas |
| Canonical.MembersInto | src/pqroute.rs:178-195 | the member loop appends the members in the order of the given keys |
| Canonical.Encode | src/pqroute.rs:155-159 | the encoder returns the printed value, which is its one canonical text by `JsonCanonical.CanonicalText` |
| PqRoute.SplitFrame | src/pqroute.rs:468-485 | a framed pair splits back iff the header is below 2^32 bytes |
| PqRoute.EnvelopeCarriesSealed | src/pqroute.rs:342-350 | a sealed envelope whose header's length survives the cast splits into that header and its sealed part |
| PqRoute.Seal | src/pqroute.rs:300-351 | the appended envelope is the specified one, with the same errors |
| PqRoute.Replace | src/pqroute.rs:375-383 | the appended blob is the specified one |
| PqRoute.ReplacedHeaderReads | src/pqroute.rs:360-383 | on every blob that splits, a replaced header reads back as the new one iff its length survives the cast and it nests within the limit; the sealed bytes are untouched iff the length survives |
| PqRoute.RouteRoundTrip | src/pqroute.rs:300-463 | opening any sealed envelope gives header, metadata and content, or the error when one is too long or nests too deep |
| PqRoute.RecordedInstance | src/pqroute.rs:300-351 | for all inputs there are ideal primitives, keys and a ledger that recorded this envelope |
| PqRoute.HeaderBytesAuthentic | src/pqroute.rs:403-463 | under ideal encryption a blob that carries the sealed part opens under the sealed header's bytes and no others |
| PqRoute.HeaderAuthentic | src/pqroute.rs:375-463 | after a replacement in the envelope, or in any blob that carries its sealed part, it opens iff the new header is the sealed one as a JSON value |
| PqDm.HeadLayout | src/pqdm.rs:157-179 | the lock's JSON head written out: four members in key order |
| PqDm.LockReads | src/pqdm.rs:157-179 | any JSON reader gets suite, sender and recipient back under their names |
| PqDm.LockText | src/pqdm.rs:157-179 | the text of the lock for names that need no escape, then the extra bytes |
| PqDm.BuildAad | src/pqdm.rs:157-179 | the buffer that is built is the downgrade-lock AAD |
| PqDm.AadInjective | src/pqdm.rs:157-179 | the AAD with any extra bytes determines suite, parties and extra |
| PqDm.AadIsCanonical | README.md:115-119 | the AAD is the ASCII-escaped canonical encoding iff no character of the three strings is above U+007E |
| PqDm.SealBody | src/pqdm.rs:231-269 | the appended sealed body is the specified one, with the same errors |
| PqDm.RecordedInstance | src/pqdm.rs:231-269 | for all inputs there are ideal primitives, keys and a ledger that recorded this seal |
| PqDm.SealRoundTrip | src/pqdm.rs:231-339 | the intended recipient opens what was sealed |
| PqDm.DowngradeLock | src/pqdm.rs:301-339 | under ideal encryption opening succeeds iff the expected suite is the hybrid one and both parties match; else a downgrade is reported |
| Digits.ParseToString | src/dm_session.rs:409-460 | a decimal epoch key reads back as its number |
| Digits.HexRoundTrip | src/dm_session.rs:409-477 | hex encoding reads back as the same bytes |
| Digits.ParseAccepts | src/dm_session.rs:460 | the texts that parse as a number: its decimal text after zeros and at most one plus sign |
| Digits.PlaceValue | src/dm_session.rs:413 | each digit of a decimal text is that of its place |
| Digits.HexEncodeAt | src/dm_session.rs:413 | each byte is two lower-case digits, the higher one first |
| Digits.HexDecodes | src/dm_session.rs:461-462 | which texts decode from hex, and to which bytes |
| Base64.UnpaddedRoundTrip | src/anon_queue.rs:171-219 | unpadded base64 decodes to the encoded bytes |
| Base64.UnpaddedOnto | src/anon_queue.rs:195-219 | text that decodes is the encoding of its bytes: no stray trailing bits |
| Base64.PaddedRoundTrip | src/dm_session.rs:154-187 | padded base64 decodes to the encoded bytes |
| Base64.PaddedOnto | src/dm_session.rs:185-187 | padded text that decodes is the encoding of its bytes |
| Base64.Alphabets | src/dm_session.rs:171 | the two alphabets of RFC 4648 |
| Base64.Grouping | src/dm_session.rs:171 | three bytes and four digits spell the same 24-bit number |
| Base64.CharsAt | src/dm_session.rs:171 | each digit stands as its character of the alphabet |
| Base64.LastGroup | src/anon_queue.rs:171-183 | length and zero bits of the last group |
| AnonQueue.SplitFront | src/anon_queue.rs:195-219 | the split at the first slash finds a slash-free relay |
| AnonQueue.AddressBijection | src/anon_queue.rs:171-219 | a pair encodes to an address iff the address decodes to the pair |
| AnonQueue.EncodeDomain | src/anon_queue.rs:171-183 | encoding succeeds iff the relay is non-empty and slash-free and the id has 16 bytes |
| HonestText.HonestSplits | src/report.rs:48-51 | no forbidden word straddles a space or parenthesis: a text passes iff both sides do |
| HonestText.SpacedHonest | src/report.rs:48-51 | words joined by spaces pass iff each does |
| HonestText.ScreenedWords | src/report.rs:33-51 | a note fails iff one of the three words stands in it, in any mix of cases |
| Report.ClassicalNoteHonest | src/report.rs:232-240 | the classical DM note passes iff peer and suite id do |
| Report.EpochNoteHonest | src/report.rs:241-249 | the epoch-ratchet note passes iff the peer does, for every epoch |
| Report.OneshotNoteHonest | src/report.rs:250-260 | the one-shot note passes iff the peer does |
| Report.ConversationNoteHonest | src/report.rs:287-322 | both conversation notes pass iff the peer does |
| Report.DmSurfaceBuilds | src/report.rs:216-263 | the DM report is built, not panicking, iff peer and suite id pass the screen |
| Report.ConversationSurfaceBuilds | src/report.rs:287-322 | the conversation report is built iff the peer passes |
| Report.SeededSuites | src/report.rs:147-162 | status and resistance of every suite id over the process-wide registry; unknown ids are classical |
| Report.SeededReferences | src/report.rs:147-162 | primitives and standards listed for every suite id |
| Report.DmSurfaceReports | src/report.rs:216-263 | suite, status, resistance, place and note of the DM report for any negotiated suite, the classical one when none is given |
| Report.ConversationSurfaceReports | src/report.rs:287-322 | the same for the conversation report |
| Report.ClassicalNoteShape | src/report.rs:232-240 | where peer, suite and level stand in the classical note |
| Report.ResistantNoteShapes | src/report.rs:241-260 | which wording the two ratchet levels get, and where the epoch stands |
| Report.ConversationNoteShapes | src/report.rs:302-319 | which wording either kind of conversation gets |
| Report.BuiltStatus | src/report.rs:147-181 | a built surface passed the screen and is quantum-resistant iff it is not classical |
| Report.CountsAddUp | src/report.rs:381-401 | resistant and classical surfaces add up to all of them |
| Report.CountsAreNumbers | src/report.rs:381-401 | each count is the number of surfaces with that status |
| Report.ReportConserves | src/report.rs:333-401 | the counts of a report and which claim it makes exactly when |
| Suites.ViewIsUnique | src/suites.rs:316-326 | a set of rows has one strictly sorted listing |
| Suites.ViewOrder | src/suites.rs:316-326 | of two rows of a listing the earlier is active before inactive, or of an earlier status text, or of an earlier id, by code points |
| Suites.SeededView | src/suites.rs:254-298 | what the process-wide registry lists, in order |
| Suites.StatusTable | src/suites.rs:87-115 | the four statuses by name, and that all but the classical one resist |
| Suites.ActiveIsPrefix | src/suites.rs:330-332 | the active rows are a prefix of the listing |
| Suites.Registry.Register | src/suites.rs:302-306 | the last row registered under an id is the one kept |
| Suites.Registry.AllSuites | src/suites.rs:316-326 | the listing is a strictly sorted permutation of the rows, whatever order the map yields |
| Suites.Registry.ActiveSuites | src/suites.rs:330-332 | the active rows, in front of the one full listing |
| Suites.RegisteredIsLastWritten | src/suites.rs:302-306 | after any history each id has its last-written row and no others exist |
| Suites.ViewForgetsHistory | src/suites.rs:302-326 | histories with the same last writes give the same listing |

## Left out

- The primitives themselves: X25519, ML-KEM-768, AES-256-GCM, SHA-256, HMAC, constant-time comparison. ML-KEM's
  tiny decapsulation failure probability is not modelled: `Crypto.Correct` takes decapsulation to be exact.
- Secrecy, forward secrecy and probability claims; the ledger model says only which openings succeed.
- Fractional seconds: times are whole seconds within a JSON integer's range, so `f64` rounding in
  `should_rekey` and in saved start times is not modelled.
- Floats in JSON, whitespace, and the reader's actual nesting constant; the reader accepts what the two printers emit
  and takes its nesting limit as a parameter.
- DmNetwork.Delivery: covers runs in which each side begins at most 2^64 epochs; past that numbers repeat and
  `DmWrap.DeliveryEndsAtWrap` shows that it fails. The number of seals is not bounded.
- DmTwoWay.TwoWay: assumes that the two sides' keys differ for the slots of sent frames in epochs both have begun,
  since HKDF is not modelled as injective.
- DmSlots.SlotsAdvance: speaks of slots drawn, one of which is used up without a frame when encryption itself fails.
- PqRoute.HeaderBytesAuthentic: which error a header gets that this reader refuses is not stated, as `serde_json`
  reads whitespace and floats that it does not.
- PqRoute.HeaderAuthentic: an envelope whose own header has 2^32 bytes or more does not split into its sealed part
  (`PqRoute.SplitFrame`) and so is not a blob that carries it.
- Ratchet.WrapUnwrap: the wrap's scratch buffers are values here; only the lengths and layout are kept.
- `r.epoch + 1` and the message counter wrap as in a release build; a debug build panics there instead.
- Error message texts, suite descriptions, and the note wording beyond its choice, its opening words and what the
  screen sees.
- `auth_tag`, `verify_tag`, `new_queue_pair`, `negotiate_suite`: thin wrappers or a two-input table.
- The rest of `src/group_ratchet.rs`, which repeats `src/ratchet.rs`; group membership has no code.
- `python.rs`, `frb_api.rs`, `frb_generated.rs`, the `wasm` directory and other glue.
