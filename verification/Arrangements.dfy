/** Reading the first arrangement request of a case, one case at a time and for many cases at once. */
module Arrangements {
  import opened Common
  import opened Oldest

  /** A case's key, as the database orders it. */
  type CaseKey = nat

  datatype SignalKind = PartialArrangementRequest | OtherKind(name: string)

  datatype CustomerSignal = CustomerSignal(
    id: string, caseId: CaseKey, kind: SignalKind, submittedAt: Instant, createdAt: Instant,
    note: Option<string>, noteTruncated: bool, noteRedactedAt: Option<Instant>)

  datatype ArrangementRequest = ArrangementRequest(
    signalId: string, requestedAt: Instant, note: Option<string>, noteTruncated: bool, noteRedactedAt: Option<Instant>)

  function RequestOf(s: CustomerSignal): ArrangementRequest {
    ArrangementRequest(s.id, s.submittedAt, s.note, s.noteTruncated, s.noteRedactedAt)
  }

  predicate DistinctIds(table: set<CustomerSignal>) {
    forall r, s :: r in table && s in table && r.id == s.id ==> r == s
  }

  /** A case's arrangement requests. */
  function RequestsOf(table: set<CustomerSignal>, c: CaseKey): set<CustomerSignal> {
    set s | s in table && s.caseId == c && s.kind == PartialArrangementRequest
  }

  /** No later than: by submission, then by insertion. */
  predicate NoLater(r: CustomerSignal, s: CustomerSignal) {
    r.submittedAt < s.submittedAt || (r.submittedAt == s.submittedAt && r.createdAt <= s.createdAt)
  }

  // ---- The read of one case ----

  /** What ORDER BY submitted_at, created_at LIMIT 1 may return: any row with no row before it. */
  predicate IsFirst(table: set<CustomerSignal>, c: CaseKey, s: CustomerSignal) {
    s in RequestsOf(table, c) && forall other :: other in RequestsOf(table, c) ==> NoLater(s, other)
  }

  /** Column by column: a request of this case than which none of its requests was made earlier, or stored earlier. */
  predicate EarliestOf(table: set<CustomerSignal>, c: CaseKey, s: CustomerSignal) {
    && s in table && s.caseId == c && s.kind == PartialArrangementRequest
    && forall other :: other in table && other.caseId == c && other.kind == PartialArrangementRequest ==>
         s.submittedAt <= other.submittedAt && (s.submittedAt == other.submittedAt ==> s.createdAt <= other.createdAt)
  }

  /** The row a request was read from: the instant it was submitted at, and the note with what became of it. */
  predicate ReadFrom(r: ArrangementRequest, s: CustomerSignal) {
    && r.signalId == s.id && r.requestedAt == s.submittedAt && r.note == s.note
    && r.noteTruncated == s.noteTruncated && r.noteRedactedAt == s.noteRedactedAt
  }

  /** The per-case read: its row is a first one, and it returns none exactly when the case made no request. */
  method FirstArrangementRequest(table: set<CustomerSignal>, c: CaseKey) returns (r: Option<ArrangementRequest>)
    ensures r.None? <==> RequestsOf(table, c) == {}
    ensures r.Some? ==> exists s :: IsFirst(table, c, s) && r.value == RequestOf(s)
    ensures r.None? <==> forall s :: s in table && s.caseId == c ==> s.kind != PartialArrangementRequest
    ensures r.Some? ==> exists s :: EarliestOf(table, c, s) && ReadFrom(r.value, s)
  {
    assert forall s ::
      s in RequestsOf(table, c) <==> s in table && s.caseId == c && s.kind == PartialArrangementRequest;
    var left := RequestsOf(table, c);
    if left == {} { return None; }
    var best :| best in left;
    left := left - {best};
    while left != {}
      invariant best in RequestsOf(table, c) && left <= RequestsOf(table, c)
      invariant forall s :: s in RequestsOf(table, c) ==> s in left || NoLater(best, s)
    {
      var next :| next in left;
      left := left - {next};
      if !NoLater(best, next) { best := next; }
    }
    assert IsFirst(table, c, best) && EarliestOf(table, c, best);
    return Some(RequestOf(best));
  }

  // ---- The read of many cases ----

  predicate ScanOrder(r: CustomerSignal, s: CustomerSignal) {
    r.caseId < s.caseId || (r.caseId == s.caseId && NoLater(r, s))
  }

  /** What the ordered statement may return: exactly the matching rows, in order; rows that tie stand either way. */
  ghost predicate IsScan(table: set<CustomerSignal>, ids: set<CaseKey>, rows: seq<CustomerSignal>) {
    && Distinct(rows)
    && (forall s :: s in rows <==> s in table && s.caseId in ids && s.kind == PartialArrangementRequest)
    && (forall i, j :: 0 <= i < j < |rows| ==> ScanOrder(rows[i], rows[j]))
  }

  /** The first row of a case in a scan. */
  function FirstIn(rows: seq<CustomerSignal>, c: CaseKey): Option<CustomerSignal> {
    if rows == [] then None
    else if FirstIn(rows[..|rows| - 1], c).Some? then FirstIn(rows[..|rows| - 1], c)
    else if rows[|rows| - 1].caseId == c then Some(rows[|rows| - 1])
    else None
  }

  /** The batched read: one pass over the scan, keeping the first row seen for each case. */
  method ArrangementRequests(ids: set<CaseKey>, rows: seq<CustomerSignal>)
    returns (earliest: map<CaseKey, ArrangementRequest>)
    ensures ids == {} ==> earliest == map[]
    ensures ids != {} ==> forall c :: c in earliest <==> FirstIn(rows, c).Some?
    ensures forall c :: c in earliest ==> FirstIn(rows, c).Some? && earliest[c] == RequestOf(FirstIn(rows, c).value)
    ensures ids != {} ==> forall c :: c in earliest <==> exists i :: 0 <= i < |rows| && rows[i].caseId == c
    ensures forall c :: c in earliest ==>
      exists i :: 0 <= i < |rows| && FirstOf(rows, i, c) && ReadFrom(earliest[c], rows[i])
  {
    earliest := map[];
    if ids == {} { return; }
    for i := 0 to |rows|
      invariant forall c :: c in earliest <==> FirstIn(rows[..i], c).Some?
      invariant forall c :: c in earliest ==> earliest[c] == RequestOf(FirstIn(rows[..i], c).value)
    {
      assert rows[..i + 1][..i] == rows[..i];
      var row := rows[i];
      if row.caseId !in earliest { earliest := earliest[row.caseId := RequestOf(row)]; }
    }
    assert rows[..|rows|] == rows;
    forall c: CaseKey
      ensures FirstIn(rows, c).Some? <==> exists i :: 0 <= i < |rows| && rows[i].caseId == c
      ensures FirstIn(rows, c).Some? ==>
        exists i :: 0 <= i < |rows| && FirstOf(rows, i, c) && FirstIn(rows, c) == Some(rows[i])
    {
      FirstInMeaning(rows, c);
      if i :| 0 <= i < |rows| && rows[i].caseId == c { assert rows[i] in rows; }
    }
  }

  /** No row before the i-th is of its case. */
  predicate FirstOf(rows: seq<CustomerSignal>, i: nat, c: CaseKey)
    requires i < |rows|
  {
    rows[i].caseId == c && forall j :: 0 <= j < i ==> rows[j].caseId != c
  }

  lemma {:induction false} FirstInMeaning(rows: seq<CustomerSignal>, c: CaseKey)
    ensures FirstIn(rows, c).None? <==> forall s :: s in rows ==> s.caseId != c
    ensures FirstIn(rows, c).Some? ==>
      exists i :: 0 <= i < |rows| && FirstIn(rows, c) == Some(rows[i]) && FirstOf(rows, i, c)
  {
    if rows != [] {
      var n := |rows| - 1;
      FirstInMeaning(rows[..n], c);
      assert rows == rows[..n] + [rows[n]];
      if FirstIn(rows[..n], c).Some? {
        var i :| 0 <= i < n && FirstIn(rows[..n], c) == Some(rows[..n][i]) && FirstOf(rows[..n], i, c);
        assert forall j :: 0 <= j < i ==> rows[j] == rows[..n][j];
        assert FirstOf(rows, i, c) && FirstIn(rows, c) == Some(rows[i]);
      } else if rows[n].caseId == c {
        assert FirstOf(rows, n, c) by {
          assert forall j :: 0 <= j < n ==> rows[j] == rows[..n][j] && rows[j] in rows[..n];
        }
      }
    }
  }

  /** In any legal scan, the row kept for a requested case is one the per-case read could have returned. */
  lemma KeptRowIsFirst(table: set<CustomerSignal>, ids: set<CaseKey>, rows: seq<CustomerSignal>, c: CaseKey)
    requires IsScan(table, ids, rows) && c in ids
    ensures FirstIn(rows, c).Some? <==> RequestsOf(table, c) != {}
    ensures FirstIn(rows, c).Some? ==>
      IsFirst(table, c, FirstIn(rows, c).value) && EarliestOf(table, c, FirstIn(rows, c).value)
  {
    hide FirstIn;
    FirstInMeaning(rows, c);
    if FirstIn(rows, c).Some? {
      var i :| 0 <= i < |rows| && FirstIn(rows, c) == Some(rows[i]) && FirstOf(rows, i, c);
      assert rows[i] in rows;
      assert rows[i] in RequestsOf(table, c);
      forall other | other in RequestsOf(table, c) ensures NoLater(rows[i], other) {
        assert other in rows;
        var k :| 0 <= k < |rows| && rows[k] == other;
      }
    } else {
      assert forall s :: s in RequestsOf(table, c) ==> s in rows;
    }
  }

  predicate SameInstants(r: CustomerSignal, s: CustomerSignal) {
    r.submittedAt == s.submittedAt && r.createdAt == s.createdAt
  }

  predicate Earlier(r: CustomerSignal, s: CustomerSignal) {
    r.submittedAt < s.submittedAt || (r.submittedAt == s.submittedAt && r.createdAt < s.createdAt)
  }

  /** Where two of the case's requests share both instants, a third was made earlier: the least pair is not shared. */
  predicate LeastPairNotShared(table: set<CustomerSignal>, c: CaseKey) {
    forall r, s :: r in RequestsOf(table, c) && s in RequestsOf(table, c) && r != s && SameInstants(r, s) ==>
      exists o :: o in RequestsOf(table, c) && Earlier(o, r)
  }

  /**
    Whichever way the database orders ties in the scan, the batched answer equals every answer the per-case
    read may give exactly when no two of the case's requests share the least pair of instants.
  */
  lemma BatchAgreesIff(table: set<CustomerSignal>, ids: set<CaseKey>, rows: seq<CustomerSignal>, c: CaseKey)
    requires DistinctIds(table) && IsScan(table, ids, rows) && c in ids && RequestsOf(table, c) != {}
    ensures FirstIn(rows, c).Some?
    ensures (forall s :: IsFirst(table, c, s) ==> RequestOf(s) == RequestOf(FirstIn(rows, c).value))
        <==> LeastPairNotShared(table, c)
  {
    hide IsScan, FirstIn;
    KeptRowIsFirst(table, ids, rows, c);
    var kept := FirstIn(rows, c).value;
    if LeastPairNotShared(table, c) {
      forall s | IsFirst(table, c, s) ensures s == kept { FirstsCoincide(table, c, s, kept); }
    } else {
      var r, s := SharedFirsts(table, c);
      var other := if r == kept then s else r;
      assert IsFirst(table, c, other) && other.id != kept.id;
    }
  }

  lemma FirstsCoincide(table: set<CustomerSignal>, c: CaseKey, r: CustomerSignal, s: CustomerSignal)
    requires LeastPairNotShared(table, c) && IsFirst(table, c, r) && IsFirst(table, c, s)
    ensures r == s
  {
    assert NoLater(r, s) && NoLater(s, r);
    forall o | o in RequestsOf(table, c) ensures !Earlier(o, r) { assert NoLater(r, o); }
  }

  lemma SharedFirsts(table: set<CustomerSignal>, c: CaseKey) returns (r: CustomerSignal, s: CustomerSignal)
    requires !LeastPairNotShared(table, c)
    ensures r != s && IsFirst(table, c, r) && IsFirst(table, c, s)
  {
    r, s :| r in RequestsOf(table, c) && s in RequestsOf(table, c) && r != s && SameInstants(r, s)
      && !exists o :: o in RequestsOf(table, c) && Earlier(o, r);
    forall o | o in RequestsOf(table, c) ensures NoLater(r, o) && NoLater(s, o) { assert !Earlier(o, r); }
  }

  /** With the pairs of instants distinct within each case, the two reads always agree. */
  lemma DistinctInstantsAgree(table: set<CustomerSignal>, ids: set<CaseKey>, rows: seq<CustomerSignal>, c: CaseKey)
    requires DistinctIds(table) && IsScan(table, ids, rows) && c in ids && RequestsOf(table, c) != {}
    requires forall r, s ::
      (r in RequestsOf(table, c) && s in RequestsOf(table, c) && SameInstants(r, s)) ==> r == s
    ensures FirstIn(rows, c).Some?
    ensures forall s :: IsFirst(table, c, s) ==> RequestOf(s) == RequestOf(FirstIn(rows, c).value)
  {
    BatchAgreesIff(table, ids, rows, c);
  }

  function RequestAt(id: string, c: CaseKey, instant: Instant): CustomerSignal {
    CustomerSignal(id, c, PartialArrangementRequest, instant, instant, None, false, None)
  }

  /** Two requests at one instant: a scan and a single read, both legal, that name different signals. */
  lemma TiedReadsDiffer(c: CaseKey, instant: Instant)
    ensures var r, s := RequestAt("first", c, instant), RequestAt("second", c, instant);
      && DistinctIds({r, s}) && IsScan({r, s}, {c}, [r, s]) && FirstIn([r, s], c) == Some(r)
      && IsFirst({r, s}, c, s) && RequestOf(s) != RequestOf(r)
  {
    var r, s := RequestAt("first", c, instant), RequestAt("second", c, instant);
    assert r.id != s.id && RequestsOf({r, s}, c) == {r, s};
    assert [r, s][..1] == [r] && [r][..0] == [];
    assert FirstIn([r], c) == Some(r);
  }
}
