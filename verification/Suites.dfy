/** The registry of crypto suites and its ordered view. */
module Suites {
  import opened Basics
  import opened Order
  import opened Utf8

  datatype SuiteKind = Kem | Sig | Aead

  datatype SuiteStatus = Classical | HybridPq | Pq | Symmetric
  {
    function AsText(): string {
      match this
      case Classical => "classical"
      case HybridPq => "hybrid-pq"
      case Pq => "pq"
      case Symmetric => "symmetric"
    }

    predicate IsQuantumResistant() {
      HybridPq? || Pq? || Symmetric?
    }
  }

  datatype CryptoSuite = CryptoSuite(
    suiteId: string,
    kind: SuiteKind,
    status: SuiteStatus,
    primitives: seq<string>,
    fipsRefs: seq<string>,
    active: bool,
    migratesFrom: Option<string>)

  /** Rows by id, each under its own one. */
  type Rows = m: map<string, CryptoSuite> | forall id :: id in m ==> m[id].suiteId == id

  // -- the order of the view ---------------------------------------------------------------------

  /** The sort key `(not active, status, suite_id)`: active rows first. */
  predicate RowLess(a: CryptoSuite, b: CryptoSuite) {
    if a.active != b.active then a.active
    else if a.status.AsText() != b.status.AsText() then TextLess(a.status.AsText(), b.status.AsText())
    else TextLess(a.suiteId, b.suiteId)
  }

  lemma RowOrderIsStrict(m: Rows)
    ensures StrictOrderOn(RowLess, m.Values)
  {
    hide TextLess;
    var ids := m.Keys;
    var statuses := set x | x in m.Values :: x.status.AsText();
    TextOrderIsStrict(ids);
    TextOrderIsStrict(statuses);
    assert forall x :: x in m.Values ==> x.suiteId in ids && m[x.suiteId] == x && x.status.AsText() in statuses;
  }

  /** All rows, strictly ascending. */
  ghost predicate IsView(m: Rows, v: seq<CryptoSuite>) {
    Elements(v) == m.Values && |v| == |m| && Sorted(RowLess, v)
  }

  /** There is only one such listing, whatever order the hash map yields its rows in. */
  lemma ViewIsUnique(m: Rows, v: seq<CryptoSuite>, w: seq<CryptoSuite>)
    requires IsView(m, v) && IsView(m, w)
    ensures v == w
  {
    RowOrderIsStrict(m);
    SortedUnique(RowLess, v, w);
  }

  /** The text order of Rust's `str`, told by code points. */
  predicate Before(a: string, b: string) {
    LexLess(CodePoints(a), CodePoints(b))
  }

  /** How a view lists its rows: active ones first, among those by status text, then by id. */
  lemma ViewOrder(m: Rows, v: seq<CryptoSuite>, i: nat, j: nat)
    requires IsView(m, v) && i < j < |v|
    ensures var (a, b) := (v[i], v[j]);
            || (a.active && !b.active)
            || (a.active == b.active && Before(a.status.AsText(), b.status.AsText()))
            || (a.active == b.active && a.status == b.status && Before(a.suiteId, b.suiteId))
  {
    hide TextLess;
    var (a, b) := (v[i], v[j]);
    assert RowLess(a, b);
    SameTextSameStatus(a.status, b.status);
    ByteOrderIsCodePointOrder(a.status.AsText(), b.status.AsText());
    ByteOrderIsCodePointOrder(a.suiteId, b.suiteId);
    TextLessIs(a.status.AsText(), b.status.AsText());
    TextLessIs(a.suiteId, b.suiteId);
  }

  lemma TextLessIs(a: string, b: string)
    ensures TextLess(a, b) == LexLess(Encode(a), Encode(b))
  {
  }

  /** The four statuses by their names, and which of them resist: all but the classical one. */
  lemma StatusTable(x: SuiteStatus)
    ensures x.AsText() == "classical" <==> x == Classical
    ensures x.AsText() == "hybrid-pq" <==> x == HybridPq
    ensures x.AsText() == "pq" <==> x == Pq
    ensures x.AsText() == "symmetric" <==> x == Symmetric
    ensures x.IsQuantumResistant() <==> x != Classical
  {
    assert "classical"[0] == 'c' && "hybrid-pq"[0] == 'h' && "pq"[0] == 'p' && "symmetric"[0] == 's';
  }

  lemma SameTextSameStatus(x: SuiteStatus, y: SuiteStatus)
    ensures x.AsText() == y.AsText() ==> x == y
  {
    assert "classical"[0] == 'c' && "hybrid-pq"[0] == 'h' && "pq"[0] == 'p' && "symmetric"[0] == 's';
  }

  function ActiveOnly(v: seq<CryptoSuite>): seq<CryptoSuite> {
    if v == [] then [] else (if v[0].active then [v[0]] else []) + ActiveOnly(v[1..])
  }

  lemma {:induction false} NoneActive(v: seq<CryptoSuite>)
    requires forall i :: 0 <= i < |v| ==> !v[i].active
    ensures ActiveOnly(v) == []
  {
    if v != [] {
      NoneActive(v[1..]);
    }
  }

  /** The active rows are a prefix of the view, and all of its active rows. */
  lemma {:induction false} ActiveIsPrefix(v: seq<CryptoSuite>)
    requires Sorted(RowLess, v)
    ensures ActiveOnly(v) <= v
    ensures forall i :: 0 <= i < |v| ==> (v[i].active <==> i < |ActiveOnly(v)|)
  {
    if v != [] {
      if v[0].active {
        ActiveIsPrefix(v[1..]);
        assert v == [v[0]] + v[1..];
        forall i | 0 <= i < |v| ensures v[i].active <==> i < |ActiveOnly(v)| {
          if i > 0 {
            assert v[i] == v[1..][i - 1];
          }
        }
      } else {
        forall i | 0 <= i < |v| ensures !v[i].active {
          if i > 0 {
            assert RowLess(v[0], v[i]);
          }
        }
        NoneActive(v);
      }
    }
  }

  // -- the registry --------------------------------------------------------------------------------

  class Registry {
    var byId: Rows

    constructor Empty()
      ensures byId == map[]
    {
      byId := map[];
    }

    /** Last write wins. */
    method Register(suite: CryptoSuite) returns (stored: CryptoSuite)
      modifies this
      ensures byId == old(byId)[suite.suiteId := suite] && stored == suite
    {
      stored := suite;
      byId := byId[suite.suiteId := suite];
    }

    method AllSuites() returns (v: seq<CryptoSuite>)
      ensures IsView(byId, v)
    {
      var listed := ListRows();
      RowOrderIsStrict(byId);
      SortIsSorted(RowLess, listed);
      v := Sort(RowLess, listed);
      SameElements(v, listed);
    }

    /** The rows in whatever order the map yields them. */
    method ListRows() returns (rows: seq<CryptoSuite>)
      ensures Distinct(rows) && Elements(rows) == byId.Values && |rows| == |byId|
    {
      rows := [];
      var left := byId.Keys;
      while left != {}
        invariant left <= byId.Keys
        invariant forall i :: 0 <= i < |rows| ==>
          rows[i].suiteId in byId.Keys - left && byId[rows[i].suiteId] == rows[i]
        invariant forall id :: id in byId.Keys - left ==> byId[id] in rows
        invariant Distinct(rows) && |rows| == |byId| - |left|
        decreases left
      {
        var id :| id in left;
        rows := rows + [byId[id]];
        left := left - {id};
      }
      assert forall x :: x in byId.Values ==> byId[x.suiteId] == x;
    }

    /** Exactly the active rows, in front of the full view. */
    method ActiveSuites() returns (v: seq<CryptoSuite>)
      ensures forall all :: IsView(byId, all) ==> v <= all && v == ActiveOnly(all)
    {
      var all := AllSuites();
      v := ActiveOnly(all);
      forall other | IsView(byId, other) ensures v <= other && v == ActiveOnly(other) {
        ViewIsUnique(byId, all, other);
        ActiveIsPrefix(all);
      }
    }
  }

  // -- histories -----------------------------------------------------------------------------------

  /** The rows after registering a history, in order. */
  function Registered(history: seq<CryptoSuite>): Rows {
    if history == [] then map[]
    else
      var last := history[|history| - 1];
      Registered(history[..|history| - 1])[last.suiteId := last]
  }

  /** The latest row of the history with that id. */
  function LastWritten(history: seq<CryptoSuite>, id: string): Option<CryptoSuite> {
    if history == [] then None
    else if history[|history| - 1].suiteId == id then Some(history[|history| - 1])
    else LastWritten(history[..|history| - 1], id)
  }

  lemma {:induction false} RegisteredIsLastWritten(history: seq<CryptoSuite>, id: string)
    ensures LastWritten(history, id) == if id in Registered(history) then Some(Registered(history)[id]) else None
  {
    if history != [] {
      RegisteredIsLastWritten(history[..|history| - 1], id);
    }
  }

  /** Histories that agree on the last write of every id give one and the same view. */
  lemma ViewForgetsHistory(h: seq<CryptoSuite>, k: seq<CryptoSuite>, v: seq<CryptoSuite>, w: seq<CryptoSuite>)
    requires forall id :: LastWritten(h, id) == LastWritten(k, id)
    requires IsView(Registered(h), v) && IsView(Registered(k), w)
    ensures v == w
  {
    var m, n := Registered(h), Registered(k);
    forall id ensures (id in m <==> id in n) && (id in m ==> m[id] == n[id]) {
      RegisteredIsLastWritten(h, id);
      RegisteredIsLastWritten(k, id);
      assert LastWritten(h, id) == LastWritten(k, id);
    }
    assert m == n;
    ViewIsUnique(m, v, w);
  }

  // -- the seeded registry ---------------------------------------------------------------------------

  const CLASSICAL_ROW := CryptoSuite("x25519-pgp-wrap-v1", Kem, Classical,
    ["X25519 (Curve25519) PGP key-wrap", "AES-256 session key"], ["RFC 7748", "RFC 9580"], true, None)

  const SYMMETRIC_ROW := CryptoSuite("aes256-gcm-v1", Aead, Symmetric,
    ["AES-256-GCM", "HKDF-SHA256"], ["FIPS 197", "SP 800-38D", "SP 800-108"], true, None)

  const HYBRID_ROW := CryptoSuite("x25519-mlkem768", Kem, HybridPq,
    ["X25519 (ephemeral-static DHKEM)", "ML-KEM-768 (FIPS 203, liboqs)", "HKDF-SHA256 concat-KDF combiner"],
    ["FIPS 203", "RFC 7748", "RFC 5869"], true, Some("x25519-pgp-wrap-v1"))

  /** The process-wide registry. */
  function Seeded(): Rows {
    Registered([CLASSICAL_ROW, SYMMETRIC_ROW, HYBRID_ROW])
  }

  /** What the process-wide registry lists: classical, then hybrid, then symmetric. */
  lemma SeededView(v: seq<CryptoSuite>)
    requires IsView(Seeded(), v)
    ensures |v| == 3
    ensures v[0].suiteId == "x25519-pgp-wrap-v1" && v[0].status == Classical && v[0].kind == Kem
    ensures v[1].suiteId == "x25519-mlkem768" && v[1].status == HybridPq && v[1].kind == Kem
    ensures v[1].migratesFrom == Some("x25519-pgp-wrap-v1")
    ensures v[2].suiteId == "aes256-gcm-v1" && v[2].status == Symmetric && v[2].kind == Aead
    ensures v[0].migratesFrom == None && v[2].migratesFrom == None
    ensures ActiveOnly(v) == v
  {
    hide IsView, Seeded, ActiveOnly;
    SeededIsView();
    ViewIsUnique(Seeded(), v, [CLASSICAL_ROW, HYBRID_ROW, SYMMETRIC_ROW]);
    AllActive();
  }

  lemma AllActive()
    ensures ActiveOnly([CLASSICAL_ROW, HYBRID_ROW, SYMMETRIC_ROW]) == [CLASSICAL_ROW, HYBRID_ROW, SYMMETRIC_ROW]
  {
    ThreeActive(CLASSICAL_ROW, HYBRID_ROW, SYMMETRIC_ROW);
  }

  lemma ThreeActive(x: CryptoSuite, y: CryptoSuite, z: CryptoSuite)
    requires x.active && y.active && z.active
    ensures ActiveOnly([x, y, z]) == [x, y, z]
  {
    assert [x, y, z][1..] == [y, z] && [y, z][1..] == [z];
    assert ActiveOnly([z]) == [z];
    assert ActiveOnly([y, z]) == [y, z];
  }

  lemma SeededIsView()
    ensures IsView(Seeded(), [CLASSICAL_ROW, HYBRID_ROW, SYMMETRIC_ROW])
  {
    hide Seeded, RowLess, Sorted;
    SeededRows();
    SeededSorted();
    DifferentIds();
    ThreeRows(Seeded(), CLASSICAL_ROW, HYBRID_ROW, SYMMETRIC_ROW);
  }

  lemma DifferentIds()
    ensures CLASSICAL_ROW.suiteId != HYBRID_ROW.suiteId
    ensures HYBRID_ROW.suiteId != SYMMETRIC_ROW.suiteId && CLASSICAL_ROW.suiteId != SYMMETRIC_ROW.suiteId
  {
    assert |"aes256-gcm-v1"| == 13 && |"x25519-mlkem768"| == 15 && |"x25519-pgp-wrap-v1"| == 18;
  }

  lemma ThreeRows(m: Rows, x: CryptoSuite, y: CryptoSuite, z: CryptoSuite)
    requires x.suiteId != y.suiteId && y.suiteId != z.suiteId && x.suiteId != z.suiteId
    requires m.Keys == {x.suiteId, y.suiteId, z.suiteId}
    requires m[x.suiteId] == x && m[y.suiteId] == y && m[z.suiteId] == z
    ensures Elements([x, y, z]) == m.Values && |m| == 3
  {
    assert |m| == |m.Keys|;
  }

  lemma SeededSorted()
    ensures Sorted(RowLess, [CLASSICAL_ROW, HYBRID_ROW, SYMMETRIC_ROW])
  {
    hide TextLess;
    StatusOrder();
    SameTextSameStatus(Classical, HybridPq);
    SameTextSameStatus(HybridPq, Symmetric);
    SameTextSameStatus(Classical, Symmetric);
  }

  lemma StatusOrder()
    ensures TextLess("classical", "hybrid-pq") && TextLess("hybrid-pq", "symmetric")
    ensures TextLess("classical", "symmetric")
  {
    FirstCharDecides("classical", "hybrid-pq");
    FirstCharDecides("hybrid-pq", "symmetric");
    FirstCharDecides("classical", "symmetric");
  }

  /** The seeded rows, each under its own id. */
  lemma SeededRows()
    ensures Seeded().Keys == {"x25519-pgp-wrap-v1", "aes256-gcm-v1", "x25519-mlkem768"}
    ensures Seeded()["x25519-pgp-wrap-v1"] == CLASSICAL_ROW
    ensures Seeded()["aes256-gcm-v1"] == SYMMETRIC_ROW
    ensures Seeded()["x25519-mlkem768"] == HYBRID_ROW
  {
    DifferentIds();
    ThreeRegistered(CLASSICAL_ROW, SYMMETRIC_ROW, HYBRID_ROW);
  }

  lemma ThreeRegistered(x: CryptoSuite, y: CryptoSuite, z: CryptoSuite)
    ensures Registered([x, y, z]) == map[][x.suiteId := x][y.suiteId := y][z.suiteId := z]
  {
    assert [x, y, z][..2] == [x, y] && [x, y][..1] == [x] && [x][..0] == [];
    assert Registered([x]) == map[x.suiteId := x];
    assert Registered([x, y]) == map[x.suiteId := x][y.suiteId := y];
  }
}
