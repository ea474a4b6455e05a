/** Rekeying by the clock: which slot every seal gets, told from the trace of calls alone. */
module DmClock {
  import opened Basics
  import opened Crypto
  import opened Ratchet
  import opened DmState
  import opened DmSlots

  /** The clock reading of the event that began the current epoch: the last one to get index 0. */
  function BegunAt(p: Primitives, s: SessionState, es: seq<Event>): Option<Seconds> {
    if es == [] then None
    else
      match Last(es)
      case Open(_, _) => BegunAt(p, s, Front(es))
      case Seal(_, _, c) =>
        var slot := Allocated(p, Run(p, s, Front(es)), Last(es));
        if slot.Some? && slot.value.index == 0 then Some(c.startedAt) else BegunAt(p, s, Front(es))
  }

  /** How one event leaves the start of the epoch. */
  lemma StepStart(p: Primitives, t: SessionState, e: Event)
    requires Coherent(t)
    ensures var (slot, r, u) := (Allocated(p, t, e), t.ratchet, Step(p, t, e).ratchet);
            if slot.Some? && slot.value.index == 0 then
              e.Seal? && u.Some? && u.value.startedAt == e.coins.startedAt
            else if slot.Some? then r.Some? && u.Some? && u.value.startedAt == r.value.startedAt
            else u == r
  {
    hide WrapDmEpochSecret, UnwrapDmEpochSecret, DeriveDmMessageKey, Decrypt, FrameAad;
  }

  /** Along every run the ratchet stands one past the last slot, and its start is the reading of the
      event that began its epoch. */
  lemma {:induction false} RatchetFollowsTrace(p: Primitives, peer: string, msgBound: U64, ageBound: U64,
      es: seq<Event>)
    ensures var s := NewSession(peer, msgBound, ageBound);
            var (r, slots, start) := (Run(p, s, es).ratchet, Slots(p, s, es), BegunAt(p, s, es));
            if slots == [] then r.None? && start.None?
            else
              && r.Some? && start.Some? && r.value.startedAt == start.value
              && r.value.epoch == Last(slots).epoch && r.value.index == Last(slots).index + 1
  {
    hide Coherent, Allocated, Step, Begins;
    var s := NewSession(peer, msgBound, ageBound);
    if es != [] {
      var t := Run(p, s, Front(es));
      RatchetFollowsTrace(p, peer, msgBound, ageBound, Front(es));
      NewCoherent(peer, msgBound, ageBound);
      RunCoherent(p, s, Front(es));
      StepStart(p, t, Last(es));
      if Allocated(p, t, Last(es)).Some? {
        AllocatedSlot(p, t, Last(es));
        assert Last(Slots(p, s, Front(es)) + [Allocated(p, t, Last(es)).value]) == Allocated(p, t, Last(es)).value;
      }
    }
  }

  /** Which slot a seal gets after any calls. The first one begins epoch 0. A later one stays in the
      epoch unless that has used its `msgBound` messages, or its clock shows `ageBound` seconds since
      the reading that the epoch began with; then it begins the next, if the wrap succeeds. */
  lemma NextSlot(p: Primitives, peer: string, msgBound: U64, ageBound: U64, es: seq<Event>,
      m: Bytes, pub: Bytes, c: Coins)
    ensures var s := NewSession(peer, msgBound, ageBound);
            var (slots, next) := (Slots(p, s, es), Allocated(p, Run(p, s, es), Seal(m, pub, c)));
            var wraps := WrapDmEpochSecret(p, c.secret, pub, c.wrap).Ok?;
            if slots == [] then next == if wraps then Some(Slot(0, 0)) else None
            else
              var (last, start) := (Last(slots), BegunAt(p, s, es));
              && start.Some?
              && next ==
                   if last.index + 1 < msgBound && c.checkedAt - start.value < ageBound
                   then Some(Slot(last.epoch, last.index + 1))
                   else if wraps then Some(Slot((last.epoch + 1) % U64_SIZE, 0))
                   else None
  {
    hide Run, Slots, BegunAt, WrapDmEpochSecret;
    var s := NewSession(peer, msgBound, ageBound);
    RatchetFollowsTrace(p, peer, msgBound, ageBound, es);
    SettingsStay(p, peer, msgBound, ageBound, es);
  }

  lemma SettingsStay(p: Primitives, peer: string, msgBound: U64, ageBound: U64, es: seq<Event>)
    ensures var t := Run(p, NewSession(peer, msgBound, ageBound), es);
            && t.msgBound == msgBound && t.ageBound == ageBound
            && (t.ratchet.Some? ==> t.ratchet.value.msgBound == msgBound && t.ratchet.value.ageBound == ageBound)
  {
    hide Run;
    NewCoherent(peer, msgBound, ageBound);
    RunCoherent(p, NewSession(peer, msgBound, ageBound), es);
  }

  // -- closed form -----------------------------------------------------------------------------------

  /** No seal of the run finds its epoch as old as the age bound, by the clocks of the calls. */
  predicate AgeNeverReached(p: Primitives, s: SessionState, es: seq<Event>) {
    es == [] ||
    (&& AgeNeverReached(p, s, Front(es))
     && (Last(es).Seal? ==> Young(p, s, Front(es), Last(es).coins.checkedAt)))
  }

  predicate Young(p: Primitives, s: SessionState, es: seq<Event>, now: Seconds) {
    BegunAt(p, s, es).Some? ==> now - BegunAt(p, s, es).value < s.ageBound
  }

  /** The n-th slot when every epoch seals `m` messages. */
  function SlotAt(n: nat, m: U64): Slot
    requires m >= 1
  {
    Slot(Quotient(n, m) % U64_SIZE, Remainder(n, m))
  }

  function Quotient(n: nat, m: U64): (q: nat)
    requires m >= 1
  {
    n / m
  }

  function Remainder(n: nat, m: U64): (r: U64)
    requires m >= 1
    ensures r < m
  {
    n % m
  }

  ghost predicate ClosedForm(slots: seq<Slot>, m: U64)
    requires m >= 1
  {
    forall n :: 0 <= n < |slots| ==> slots[n] == SlotAt(n, m)
  }

  /** The n-th slot of a new session is `(n / m, n % m)`, the first modulo 2^64, whatever is opened
      in between. */
  lemma {:induction false} SlotClosedForm(p: Primitives, peer: string, msgBound: U64, ageBound: U64, es: seq<Event>)
    requires AgeNeverReached(p, NewSession(peer, msgBound, ageBound), es)
    ensures ClosedForm(Slots(p, NewSession(peer, msgBound, ageBound), es), if msgBound == 0 then 1 else msgBound)
  {
    hide Run, Allocated, SlotAt, BegunAt;
    var s := NewSession(peer, msgBound, ageBound);
    if es != [] {
      SlotClosedForm(p, peer, msgBound, ageBound, Front(es));
      match Last(es)
      case Open(_, _) => NoSlotForOpen(p, Run(p, s, Front(es)), Last(es));
      case Seal(m, pub, c) =>
        NextSlot(p, peer, msgBound, ageBound, Front(es), m, pub, c);
        var (n, m) := (|Slots(p, s, Front(es))|, if msgBound == 0 then 1 else msgBound);
        NextSlotAt(n, m);
        if n > 0 {
          NextSlotAt(n - 1, m);
        }
    }
  }

  lemma NoSlotForOpen(p: Primitives, t: SessionState, e: Event)
    requires e.Open?
    ensures Allocated(p, t, e).None?
  {
  }

  /** From one slot to the next. */
  lemma NextSlotAt(n: nat, m: U64)
    requires m >= 1
    ensures SlotAt(n, m).index < m
    ensures n == 0 ==> SlotAt(n, m) == Slot(0, 0)
    ensures n > 0 ==>
      var last := SlotAt(n - 1, m);
      SlotAt(n, m) == if last.index + 1 == m then Slot((last.epoch + 1) % U64_SIZE, 0)
                      else Slot(last.epoch, last.index + 1)
  {
    hide Quotient, Remainder;
    if n == 0 {
      FirstStep(m);
    } else {
      QuotientStep(n, m);
      NextNumber(Quotient(n - 1, m));
    }
  }

  lemma FirstStep(m: U64)
    requires m >= 1
    ensures Quotient(0, m) == 0 && Remainder(0, m) == 0
  {
    DivUnique(0, m, 0, 0);
  }

  lemma QuotientStep(n: nat, m: U64)
    requires n >= 1 && m >= 1
    ensures Remainder(n - 1, m) + 1 == m ==> Quotient(n, m) == Quotient(n - 1, m) + 1 && Remainder(n, m) == 0
    ensures Remainder(n - 1, m) + 1 < m ==>
      Quotient(n, m) == Quotient(n - 1, m) && Remainder(n, m) == Remainder(n - 1, m) + 1
  {
    DivStep(n, m);
  }

  lemma NextNumber(q: nat)
    ensures (q % U64_SIZE + 1) % U64_SIZE == (q + 1) % U64_SIZE
  {
  }

  lemma DivStep(n: nat, m: nat)
    requires n >= 1 && m >= 1
    ensures (n - 1) % m + 1 == m ==> n / m == (n - 1) / m + 1 && n % m == 0
    ensures (n - 1) % m + 1 < m ==> n / m == (n - 1) / m && n % m == (n - 1) % m + 1
  {
    var q, r := (n - 1) / m, (n - 1) % m;
    assert n - 1 == q * m + r;
    if r + 1 == m {
      DivUnique(n, m, q + 1, 0) by { assert n == (q + 1) * m + 0; }
    } else {
      DivUnique(n, m, q, r + 1);
    }
  }

  // -- how often the key-agreement message is sent ---------------------------------------------------

  function Least(a: int, b: int): int {
    if a < b then a else b
  }

  /** Slots whose frame carries the key-agreement message. */
  function KamCount(slots: seq<Slot>): nat {
    if slots == [] then 0
    else KamCount(Front(slots)) + (if Last(slots).index < 3 then 1 else 0)
  }

  lemma {:induction false} KamCountClosedForm(slots: seq<Slot>, m: U64)
    requires m >= 1 && ClosedForm(slots, m)
    ensures var n := |slots|; KamCount(slots) == n / m * Least(3, m) + Least(3, n % m)
  {
    var n := |slots|;
    if n == 0 {
      DivUnique(0, m, 0, 0);
    } else {
      KamCountClosedForm(Front(slots), m);
      assert Last(slots).index == (n - 1) % m;
      KamStep(n, m);
    }
  }

  /** One more slot: its share of the closed form. */
  lemma KamStep(n: nat, m: nat)
    requires n >= 1 && m >= 1
    ensures n / m * Least(3, m) + Least(3, n % m)
         == (n - 1) / m * Least(3, m) + Least(3, (n - 1) % m)
          + (if (n - 1) % m < 3 then 1 else 0)
  {
    DivStep(n, m);
    var q, l := (n - 1) / m, Least(3, m);
    assert (q + 1) * l == q * l + l;
  }

  /** After n sealed messages the KAM went out `(n / m) * min(3, m) + min(3, n % m)` times. */
  lemma KamsSent(p: Primitives, peer: string, msgBound: U64, ageBound: U64, es: seq<Event>)
    requires var s := NewSession(peer, msgBound, ageBound); AgeNeverReached(p, s, es)
    ensures var s := NewSession(peer, msgBound, ageBound);
            var (n, m) := (|Slots(p, s, es)|, EpochSize(s));
            KamCount(Slots(p, s, es)) == n / m * Least(3, m) + Least(3, n % m)
  {
    SlotClosedForm(p, peer, msgBound, ageBound, es);
    var s := NewSession(peer, msgBound, ageBound);
    KamCountClosedForm(Slots(p, s, es), EpochSize(s));
  }
}
