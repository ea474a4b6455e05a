/** Which `(epoch, index)` slots a session seals into, over every run and with any clock. */
module DmSlots {
  import opened Basics
  import opened Order
  import opened Crypto
  import opened Kem
  import opened Ratchet
  import opened DmState

  datatype Slot = Slot(epoch: U64, index: U64)

  predicate SlotLess(a: Slot, b: Slot) {
    a.epoch < b.epoch || (a.epoch == b.epoch && a.index < b.index)
  }

  /** The slot the event seals into; a failed rekey takes none. */
  function Allocated(p: Primitives, s: SessionState, e: Event): Option<Slot> {
    match e
    case Open(_, _) => None
    case Seal(m, pub, c) =>
      match Prepare(p, s, pub, c)
      case Err(_) => None
      case Ok(ready) => Some(Slot(ready.ratchet.value.epoch, ready.ratchet.value.index))
  }

  /** The slots of a run in order. */
  function Slots(p: Primitives, s: SessionState, es: seq<Event>): seq<Slot> {
    if es == [] then []
    else
      var before := Slots(p, s, Front(es));
      match Allocated(p, Run(p, s, Front(es)), Last(es))
      case None => before
      case Some(slot) => before + [slot]
  }

  /** An emitted frame carries its slot, and the KAM exactly in the first three of its epoch. */
  lemma FrameCarriesSlot(p: Primitives, s: SessionState, m: Bytes, pub: Bytes, c: Coins)
    requires Coherent(s)
    ensures var (t, r) := SealStep(p, s, m, pub, c);
            && (r.Ok? ==>
                 && Allocated(p, s, Seal(m, pub, c)) == Some(Slot(r.value.epoch, r.value.index))
                 && (r.value.kam.Some? <==> r.value.index < 3))
            && (Allocated(p, s, Seal(m, pub, c)).None? ==> t == s && r.Err?)
  {
    hide WrapDmEpochSecret, DeriveDmMessageKey, FrameAad;
  }

  /** One event: where the next slot lies and how the ratchet moves past it. */
  lemma AllocatedSlot(p: Primitives, s: SessionState, e: Event)
    requires Coherent(s) && Allocated(p, s, e).Some?
    ensures var slot, r := Allocated(p, s, e).value, Step(p, s, e).ratchet;
            && r.Some? && r.value.epoch == slot.epoch && r.value.index == slot.index + 1
            && e.Seal? && slot.index < EpochSize(s)
            && (Begins(p, s, e) ==> slot == Slot(NextEpoch(s) % U64_SIZE, 0))
            && (!Begins(p, s, e) ==>
                 && s.ratchet.Some?
                 && !s.ratchet.value.Due(e.coins.checkedAt)
                 && slot == Slot(s.ratchet.value.epoch, s.ratchet.value.index))
  {
    hide WrapDmEpochSecret, DeriveDmMessageKey, FrameAad;
  }

  lemma UnallocatedStep(p: Primitives, s: SessionState, e: Event)
    requires Coherent(s) && Allocated(p, s, e).None?
    ensures Step(p, s, e).ratchet == s.ratchet && !Begins(p, s, e)
  {
    hide WrapDmEpochSecret, UnwrapDmEpochSecret, Decrypt;
  }

  /** A rekey happens exactly when due, and only then may the slot number fall back. */
  lemma SlotAdvances(p: Primitives, s: SessionState, e: Event)
    requires Coherent(s) && s.ratchet.Some? && Allocated(p, s, e).Some?
    ensures var r := s.ratchet.value;
            var advances := SlotLess(Slot(r.epoch, r.index - 1), Allocated(p, s, e).value);
            advances <==> !(r.Due(e.coins.checkedAt) && r.epoch == U64_SIZE - 1)
  {
    hide WrapDmEpochSecret;
  }

  /** After the last epoch number the slots start over at the first one. */
  lemma WrapReusesFirstSlot(p: Primitives, s: SessionState, e: Event)
    requires Coherent(s) && NextEpoch(s) == U64_SIZE && Begins(p, s, e)
    ensures Allocated(p, s, e) == Some(Slot(0, 0))
  {
    hide WrapDmEpochSecret;
  }

  // -- uniqueness ------------------------------------------------------------------------------------

  ghost predicate Increasing(slots: seq<Slot>) {
    forall i, j :: 0 <= i < j < |slots| ==> SlotLess(slots[i], slots[j])
  }

  /** A slot by the ordinal of its epoch, which does not wrap. */
  datatype Place = Place(ordinal: nat, index: U64)

  predicate PlaceLess(a: Place, b: Place) {
    a.ordinal < b.ordinal || (a.ordinal == b.ordinal && a.index < b.index)
  }

  /** How many epochs the session and the run have begun. */
  function Ordinal(p: Primitives, s: SessionState, es: seq<Event>): nat {
    NextEpoch(s) + BeginCount(p, s, es)
  }

  /** The slots of a run, each by the ordinal of the epoch current at its seal. */
  function Places(p: Primitives, s: SessionState, es: seq<Event>): (r: seq<Place>)
    ensures |r| == |Slots(p, s, es)|
  {
    if es == [] then []
    else
      var before := Places(p, s, Front(es));
      match Allocated(p, Run(p, s, Front(es)), Last(es))
      case None => before
      case Some(slot) => before + [Place(Ordinal(p, s, es), slot.index)]
  }

  ghost predicate Ordered(places: seq<Place>) {
    forall i, j :: 0 <= i < j < |places| ==> PlaceLess(places[i], places[j])
  }

  /** No place lies past the ratchet, whose epoch is the `ordinal`-th. */
  ghost predicate Passed(places: seq<Place>, ordinal: nat, r: Option<RatchetState>) {
    forall i :: 0 <= i < |places| ==> r.Some? && PlaceLess(places[i], Place(ordinal, r.value.index))
  }

  /** The slot number is the ordinal of its epoch, from 0 and modulo 2^64, and the index in it. */
  ghost predicate NumberedBy(slots: seq<Slot>, places: seq<Place>, size: U64)
    requires |slots| == |places|
  {
    forall i :: 0 <= i < |slots| ==>
      && places[i].ordinal >= 1
      && slots[i] == Slot(NumberOf(places[i].ordinal), places[i].index)
      && slots[i].index < size
  }

  /** The place of the last event of a run: the next one in the current epoch, or first of a new one. */
  lemma LastPlace(p: Primitives, s: SessionState, es: seq<Event>)
    requires Coherent(s) && es != []
    ensures var (t, u) := (Run(p, s, Front(es)), Run(p, s, es));
            var (before, after) := (Ordinal(p, s, Front(es)), Ordinal(p, s, es));
            match Allocated(p, t, Last(es))
            case None => u.ratchet == t.ratchet && after == before
            case Some(slot) =>
              && after >= 1 && slot == Slot(NumberOf(after), slot.index) && slot.index < EpochSize(s)
              && u.ratchet.Some? && u.ratchet.value.index == slot.index + 1
              && (after > before || (after == before && t.ratchet.Some? && slot.index == t.ratchet.value.index))
  {
    hide Coherent, Allocated, Step, Begins, EpochSize, NumberOf, Ordinal, Run;
    var (t, e) := (Run(p, s, Front(es)), Last(es));
    RunCoherent(p, s, Front(es));
    SameSize(s, t);
    LastOrdinal(p, s, es);
    if Allocated(p, t, e).Some? {
      AllocatedPlace(p, t, e);
    } else {
      UnallocatedStep(p, t, e);
    }
  }

  lemma LastOrdinal(p: Primitives, s: SessionState, es: seq<Event>)
    requires Coherent(s) && es != []
    ensures var (t, u) := (Run(p, s, Front(es)), Run(p, s, es));
            && u == Step(p, t, Last(es))
            && Ordinal(p, s, es) == Ordinal(p, s, Front(es)) + (if Begins(p, t, Last(es)) then 1 else 0)
            && (u.ratchet.Some? ==>
                 Ordinal(p, s, es) >= 1 && u.ratchet.value.epoch == NumberOf(Ordinal(p, s, es)))
  {
    hide Coherent, Step, Begins, Numbered, NextEpoch, NumberOf;
    NextEpochCounts(p, s, es);
    if Run(p, s, es).ratchet.Some? {
      NumberIsLast(Ordinal(p, s, es), Run(p, s, es));
    }
  }

  lemma AllocatedPlace(p: Primitives, t: SessionState, e: Event)
    requires Coherent(t) && Allocated(p, t, e).Some?
    ensures var (slot, r) := (Allocated(p, t, e).value, Step(p, t, e).ratchet);
            && slot.index < EpochSize(t)
            && r.Some? && r.value.epoch == slot.epoch && r.value.index == slot.index + 1
            && (Begins(p, t, e) || (t.ratchet.Some? && slot.index == t.ratchet.value.index))
  {
    hide Allocated, Step, Coherent, Begins, EpochSize, NextEpoch;
    AllocatedSlot(p, t, e);
  }

  /** The number of the `n`-th epoch, from 0. */
  function NumberOf(n: nat): U64 {
    (n - 1) % U64_SIZE
  }

  lemma NumberIsLast(n: nat, u: SessionState)
    requires NextEpoch(u) == Numbered(n) && u.ratchet.Some?
    ensures n >= 1 && u.ratchet.value.epoch == NumberOf(n)
  {
  }

  lemma SameSize(s: SessionState, t: SessionState)
    requires SameSettings(s, t)
    ensures EpochSize(s) == EpochSize(t)
  {
  }

  /** Every run advances by epoch ordinal and index, and no index reaches the epoch size. */
  lemma {:induction false} SlotsAdvance(p: Primitives, s: SessionState, es: seq<Event>)
    requires Coherent(s)
    ensures Ordered(Places(p, s, es))
    ensures Passed(Places(p, s, es), Ordinal(p, s, es), Run(p, s, es).ratchet)
    ensures NumberedBy(Slots(p, s, es), Places(p, s, es), EpochSize(s))
  {
    hide Coherent, Allocated, Run, Ordinal, EpochSize, NumberOf;
    if es != [] {
      SlotsAdvance(p, s, Front(es));
      LastPlace(p, s, es);
      if Allocated(p, Run(p, s, Front(es)), Last(es)).None? {
        assert Places(p, s, es) == Places(p, s, Front(es)) && Slots(p, s, es) == Slots(p, s, Front(es));
      }
    }
  }

  /** As long as no epoch number wraps the slots themselves strictly increase, so none repeats. */
  lemma {:induction false} SlotsIncrease(p: Primitives, s: SessionState, es: seq<Event>)
    requires Coherent(s) && NoWrap(p, s, es)
    ensures Increasing(Slots(p, s, es))
  {
    hide Coherent, Places, Slots, NumberOf;
    SlotsAdvance(p, s, es);
    PlacesBelow(p, s, es);
    var (slots, places) := (Slots(p, s, es), Places(p, s, es));
    forall i, j | 0 <= i < j < |slots| ensures SlotLess(slots[i], slots[j]) {
      NumbersKeepOrder(places[i].ordinal, places[j].ordinal);
    }
  }

  lemma NumbersKeepOrder(m: nat, n: nat)
    requires 1 <= m <= n <= U64_SIZE
    ensures m < n ==> NumberOf(m) < NumberOf(n)
  {
  }

  lemma {:induction false} PlacesBelow(p: Primitives, s: SessionState, es: seq<Event>)
    ensures forall i :: 0 <= i < |Places(p, s, es)| ==> Places(p, s, es)[i].ordinal <= Ordinal(p, s, es)
  {
    hide Allocated, Run, Begins;
    if es != [] {
      PlacesBelow(p, s, Front(es));
    }
  }

  /** Every epoch begun takes a slot, and the first slot of a new session is the first there is. */
  lemma {:induction false} FirstSlot(p: Primitives, peer: string, msgBound: U64, ageBound: U64, es: seq<Event>)
    ensures var s := NewSession(peer, msgBound, ageBound);
            var slots := Slots(p, s, es);
            && BeginCount(p, s, es) <= |slots|
            && (slots == [] ==> Run(p, s, es).ratchet.None?)
            && (slots != [] ==> slots[0] == Slot(0, 0))
  {
    hide Coherent, Allocated, Step, Begins;
    var s := NewSession(peer, msgBound, ageBound);
    assert Coherent(s) by { NewCoherent(peer, msgBound, ageBound); }
    if es != [] {
      var t := Run(p, s, Front(es));
      FirstSlot(p, peer, msgBound, ageBound, Front(es));
      RunCoherent(p, s, Front(es));
      if Allocated(p, t, Last(es)).Some? {
        AllocatedSlot(p, t, Last(es));
      } else {
        UnallocatedStep(p, t, Last(es));
      }
    }
  }

  /** A slot of a new session is used twice exactly when the run begins more than 2^64 epochs. */
  lemma {:induction false} SlotsRepeatOnlyByWrap(p: Primitives, peer: string, msgBound: U64, ageBound: U64,
      es: seq<Event>)
    ensures var s := NewSession(peer, msgBound, ageBound);
            && (Distinct(Slots(p, s, es)) <==> BeginCount(p, s, es) <= U64_SIZE)
            && (Increasing(Slots(p, s, es)) <==> BeginCount(p, s, es) <= U64_SIZE)
  {
    hide Coherent, Allocated, Step, Begins;
    var s := NewSession(peer, msgBound, ageBound);
    assert Coherent(s) by { NewCoherent(peer, msgBound, ageBound); }
    var slots := Slots(p, s, es);
    if BeginCount(p, s, es) <= U64_SIZE {
      SlotsIncrease(p, s, es);
      assert Distinct(slots);
    } else {
      var before := Slots(p, s, Front(es));
      FirstSlot(p, peer, msgBound, ageBound, Front(es));
      if BeginCount(p, s, Front(es)) > U64_SIZE {
        SlotsRepeatOnlyByWrap(p, peer, msgBound, ageBound, Front(es));
        FrontRepeats(before, slots);
      } else {
        var t := Run(p, s, Front(es));
        RunCoherent(p, s, Front(es));
        NextEpochCounts(p, s, Front(es));
        BeginningTakesSlot(p, t, Last(es));
        WrapReusesFirstSlot(p, t, Last(es));
        assert slots == before + [Slot(0, 0)];
        assert slots[0] == slots[|slots| - 1];
      }
    }
  }

  lemma BeginningTakesSlot(p: Primitives, s: SessionState, e: Event)
    requires Begins(p, s, e)
    ensures Allocated(p, s, e).Some?
  {
  }

  lemma FrontRepeats(a: seq<Slot>, b: seq<Slot>)
    requires a <= b
    ensures Distinct(b) ==> Distinct(a)
    ensures Increasing(b) ==> Increasing(a)
  {
    assert forall i :: 0 <= i < |a| ==> a[i] == b[i];
  }

  /** The same seal over and over. */
  function Seals(n: nat, pub: Bytes, c: Coins): (es: seq<Event>)
    ensures |es| == n
  {
    seq(n, i => Seal([], pub, c))
  }

  /** With a message bound of zero every seal begins an epoch. */
  lemma {:induction false} EverySealBegins(peer: string, ageBound: U64, n: nat, pub: Bytes, c: Coins)
    requires |pub| == PUBLIC_KEY_LEN
    ensures BeginCount(TOY, NewSession(peer, 0, ageBound), Seals(n, pub, c)) == n
  {
    hide Run, Begins;
    var s := NewSession(peer, 0, ageBound);
    var es := Seals(n, pub, c);
    if n > 0 {
      EverySealBegins(peer, ageBound, n - 1, pub, c);
      assert Front(es) == Seals(n - 1, pub, c);
      NewCoherent(peer, 0, ageBound);
      RunCoherent(TOY, s, Front(es));
      ZeroBoundBegins(Run(TOY, s, Front(es)), pub, c);
    }
  }

  lemma ZeroBoundBegins(t: SessionState, pub: Bytes, c: Coins)
    requires Coherent(t) && t.msgBound == 0 && |pub| == PUBLIC_KEY_LEN
    ensures Begins(TOY, t, Seal([], pub, c))
  {
    assert BeginAt(t, c.checkedAt).Some?;
    assert WrapDmEpochSecret(TOY, c.secret, pub, c.wrap).Ok?;
  }

  /** Such a run does come back to a slot, at its seal number 2^64 + 1 and not before. */
  lemma SlotsDoRepeat(peer: string, ageBound: U64, n: nat, pub: Bytes, c: Coins)
    requires |pub| == PUBLIC_KEY_LEN
    ensures Distinct(Slots(TOY, NewSession(peer, 0, ageBound), Seals(n, pub, c))) <==> n <= U64_SIZE
  {
    hide Slots, Seals;
    EverySealBegins(peer, ageBound, n, pub, c);
    SlotsRepeatOnlyByWrap(TOY, peer, 0, ageBound, Seals(n, pub, c));
  }
}
