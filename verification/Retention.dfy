/** Redacting customer data past its retention bound: batch by batch, oldest first, until nothing is left. */
module Retention {
  import opened Common
  import opened Transitions
  import opened Oldest

  type Id = string
  type Bytes = seq<bv8>

  /** A case row: what redaction may erase, what selects it, and every other column together. */
  datatype CaseData = CaseData(
    state: CaseState, detectedAt: Instant, contact: Option<string>, sourceEvent: Option<Id>, otherColumns: string)

  datatype WebhookData = WebhookData(payload: Bytes, nonce: Bytes)

  datatype SignalData = SignalData(
    submittedAt: Instant, note: Option<string>, noteRedactedAt: Option<Instant>,
    configVersion: Option<string>, otherColumns: string)

  datatype Store = Store(cases: map<Id, CaseData>, events: map<Id, WebhookData>, signals: map<Id, SignalData>)

  datatype Report = Report(
    casesRedacted: int, payloadsRedacted: int, notesRedacted: int, configVersion: string,
    cutoff: Instant, moreRemaining: bool)

  /** What a pass runs under: its instant, and the retention bound with the version of the configuration it is from. */
  datatype Setting = Setting(moment: Instant, retention: Instant, version: string)

  function Cutoff(g: Setting): Instant { g.moment - g.retention }

  /** What a row whose note was redacted says about it. */
  datatype Stamp = Stamp(at: Instant, version: string)

  function Stamps(notes: set<Id>, g: Setting): map<Id, Stamp> { map id | id in notes :: Stamp(g.moment, g.version) }

  predicate RedactedAnything(r: Report) { r.casesRedacted != 0 || r.payloadsRedacted != 0 || r.notesRedacted != 0 }

  // ---- What is due, and what redacting it means ----

  predicate CaseIsDue(c: CaseData, cutoff: Instant) {
    IsTerminal(c.state) && c.detectedAt < cutoff && c.contact.Some?
  }

  predicate NoteIsDue(s: SignalData, cutoff: Instant) { s.submittedAt < cutoff && s.note.Some? }

  function DueCases(s: Store, cutoff: Instant): set<Id> {
    set id | id in s.cases && CaseIsDue(s.cases[id], cutoff)
  }

  function DueNotes(s: Store, cutoff: Instant): set<Id> {
    set id | id in s.signals && NoteIsDue(s.signals[id], cutoff)
  }

  /** Webhook events that opened one of these cases and still hold their payload. */
  function PayloadsOf(s: Store, cases: set<Id>): set<Id> {
    set id | id in cases && id in s.cases && s.cases[id].sourceEvent.Some?
             && s.cases[id].sourceEvent.value in s.events && s.events[s.cases[id].sourceEvent.value].payload != []
           :: s.cases[id].sourceEvent.value
  }

  /** The store with exactly these cases' contact and payloads, and exactly these notes, gone, each note stamped. */
  function Redacted(s: Store, cases: set<Id>, stamps: map<Id, Stamp>): Store {
    Store(
      map id | id in s.cases :: if id in cases then s.cases[id].(contact := None) else s.cases[id],
      map id | id in s.events :: if id in PayloadsOf(s, cases) then WebhookData([], []) else s.events[id],
      map id | id in s.signals ::
        if id in stamps
        then s.signals[id].(note := None, noteRedactedAt := Some(stamps[id].at),
                            configVersion := Some(stamps[id].version))
        else s.signals[id])
  }

  /** The schema's CHECK: a row that says its note was redacted holds none. */
  predicate NotesAbsentWhenRedacted(s: Store) {
    forall id :: id in s.signals && s.signals[id].noteRedactedAt.Some? ==> s.signals[id].note.None?
  }

  /** Redacting in two batches is redacting both at once. */
  lemma RedactedTwice(
    s: Store, cases: set<Id>, stamps: map<Id, Stamp>, moreCases: set<Id>, moreStamps: map<Id, Stamp>)
    ensures Redacted(Redacted(s, cases, stamps), moreCases, moreStamps)
         == Redacted(s, cases + moreCases, stamps + moreStamps)
  {
    var once := Redacted(s, cases, stamps);
    PayloadsSplit(s, cases, stamps, moreCases);
    assert PayloadsOf(s, cases + moreCases) == PayloadsOf(s, cases) + PayloadsOf(once, moreCases);
  }

  /** A payload erased with one batch is not there to be erased, or counted, with the next. */
  lemma PayloadsSplit(s: Store, cases: set<Id>, stamps: map<Id, Stamp>, moreCases: set<Id>)
    ensures var once := Redacted(s, cases, stamps);
      && PayloadsOf(s, cases + moreCases) == PayloadsOf(s, cases) + PayloadsOf(once, moreCases)
      && PayloadsOf(s, cases) !! PayloadsOf(once, moreCases)
  {
    var once := Redacted(s, cases, stamps);
    forall e | e in PayloadsOf(s, cases + moreCases) ensures e in PayloadsOf(s, cases) + PayloadsOf(once, moreCases) {
      var id :| id in cases + moreCases && id in s.cases && s.cases[id].sourceEvent == Some(e);
      if e !in PayloadsOf(s, cases) { assert once.cases[id].sourceEvent == Some(e) && once.events[e] == s.events[e]; }
    }
    forall e | e in PayloadsOf(once, moreCases)
      ensures e in PayloadsOf(s, cases + moreCases) && e !in PayloadsOf(s, cases)
    {
      var id :| id in moreCases && id in once.cases && once.cases[id].sourceEvent == Some(e);
      assert s.cases[id].sourceEvent == Some(e);
    }
  }

  /** Redacting rows takes exactly them out of what is due, at whatever cutoff. */
  lemma RedactedLeaves(s: Store, cases: set<Id>, stamps: map<Id, Stamp>, cutoff: Instant)
    ensures var after := Redacted(s, cases, stamps);
      && DueCases(after, cutoff) == DueCases(s, cutoff) - cases
      && DueNotes(after, cutoff) == DueNotes(s, cutoff) - stamps.Keys
  {}

  lemma RedactedKeepsCheck(s: Store, cases: set<Id>, stamps: map<Id, Stamp>)
    requires NotesAbsentWhenRedacted(s)
    ensures NotesAbsentWhenRedacted(Redacted(s, cases, stamps))
  {}

  // ---- One pass ----

  function DetectedAt(s: Store): map<Id, int> { map id | id in s.cases :: s.cases[id].detectedAt }

  function SubmittedAt(s: Store): map<Id, int> { map id | id in s.signals :: s.signals[id].submittedAt }

  /** One pass: the oldest due cases and the oldest due notes, up to the limit each, and what it reports. */
  ghost predicate OnePass(
    s: Store, after: Store, cases: seq<Id>, notes: seq<Id>, report: Report, g: Setting, limit: nat)
  {
    && OldestFirst(cases, DueCases(s, Cutoff(g)), DetectedAt(s), limit)
    && OldestFirst(notes, DueNotes(s, Cutoff(g)), SubmittedAt(s), limit)
    && after == Redacted(s, Elements(cases), Stamps(Elements(notes), g))
    && report == Report(|cases|, |PayloadsOf(s, Elements(cases))|, |notes|, g.version, Cutoff(g),
                        |DueCases(s, Cutoff(g))| > limit || |DueNotes(s, Cutoff(g))| > limit)
  }

  lemma NotesUntouched(s: Store, cases: set<Id>, cutoff: Instant)
    ensures var after := Redacted(s, cases, map[]);
      && after.signals == s.signals
      && DueNotes(after, cutoff) == DueNotes(s, cutoff) && SubmittedAt(after) == SubmittedAt(s)
  {}

  lemma BothAtOnce(s: Store, cases: set<Id>, stamps: map<Id, Stamp>)
    ensures Redacted(Redacted(s, cases, map[]), {}, stamps) == Redacted(s, cases, stamps)
  {
    NotesUntouched(s, cases, 0);
    assert PayloadsOf(Redacted(s, cases, map[]), {}) == {};
  }

  // ---- One pass, column by column ----

  /**
    The batch of cases: ended, detected before the cutoff, still holding a contact; detected longest ago first, each
    once, up to the limit, and one left out only by a full batch detected no later.
  */
  predicate LongestEnded(s: Store, cutoff: Instant, batch: seq<Id>, limit: nat) {
    && Distinct(batch) && |batch| <= limit
    && (forall id :: id in batch ==> id in s.cases && HoldsTooLong(s.cases[id], cutoff))
    && (forall i, j :: 0 <= i < j < |batch| ==>
          batch[i] in s.cases && batch[j] in s.cases && s.cases[batch[i]].detectedAt <= s.cases[batch[j]].detectedAt)
    && (forall id, other :: id in s.cases && HoldsTooLong(s.cases[id], cutoff) && id !in batch && other in batch ==>
          other in s.cases && s.cases[other].detectedAt <= s.cases[id].detectedAt)
    && (forall id :: id in s.cases && HoldsTooLong(s.cases[id], cutoff) && id !in batch ==> |batch| == limit)
  }

  predicate HoldsTooLong(c: CaseData, cutoff: Instant) {
    c.state in {Recovered, Stopped, Blocked, Expired, Escalated, Failed} && c.detectedAt < cutoff && c.contact.Some?
  }

  /** The batch of notes: submitted before the cutoff, at whatever state their case is in; otherwise as for cases. */
  predicate LongestNoted(s: Store, cutoff: Instant, batch: seq<Id>, limit: nat) {
    && Distinct(batch) && |batch| <= limit
    && (forall id :: id in batch ==> id in s.signals && s.signals[id].submittedAt < cutoff && s.signals[id].note.Some?)
    && (forall i, j :: 0 <= i < j < |batch| ==>
          && batch[i] in s.signals && batch[j] in s.signals
          && s.signals[batch[i]].submittedAt <= s.signals[batch[j]].submittedAt)
    && (forall id, other ::
          (id in s.signals && s.signals[id].submittedAt < cutoff && s.signals[id].note.Some? && id !in batch
           && other in batch) ==>
            other in s.signals && s.signals[other].submittedAt <= s.signals[id].submittedAt)
    && (forall id ::
          id in s.signals && s.signals[id].submittedAt < cutoff && s.signals[id].note.Some? && id !in batch ==>
            |batch| == limit)
  }

  lemma CaseBatchMeaning(s: Store, cutoff: Instant, batch: seq<Id>, limit: nat)
    requires DueCases(s, cutoff) <= DetectedAt(s).Keys
    requires OldestFirst(batch, DueCases(s, cutoff), DetectedAt(s), limit)
    ensures LongestEnded(s, cutoff, batch, limit)
  {
    OnlyFullLeavesOut(batch, DueCases(s, cutoff), DetectedAt(s), limit);
    assert forall id :: id in DueCases(s, cutoff) <==> id in s.cases && HoldsTooLong(s.cases[id], cutoff);
  }

  lemma NoteBatchMeaning(s: Store, cutoff: Instant, batch: seq<Id>, limit: nat)
    requires DueNotes(s, cutoff) <= SubmittedAt(s).Keys
    requires OldestFirst(batch, DueNotes(s, cutoff), SubmittedAt(s), limit)
    ensures LongestNoted(s, cutoff, batch, limit)
  {
    OnlyFullLeavesOut(batch, DueNotes(s, cutoff), SubmittedAt(s), limit);
  }

  /** The event opened one of these cases. */
  predicate OpenedOneOf(s: Store, cases: seq<Id>, event: Id) {
    exists id :: id in cases && id in s.cases && s.cases[id].sourceEvent == Some(event)
  }

  /**
    Exactly these cases have lost their contact, exactly the events that opened them their payload, and exactly these
    notes are gone, with the instant and the configuration they went under; every other row is as it was.
  */
  ghost predicate Erased(s: Store, after: Store, cases: seq<Id>, notes: seq<Id>, stamps: map<Id, Stamp>) {
    && after.cases.Keys == s.cases.Keys && after.events.Keys == s.events.Keys && after.signals.Keys == s.signals.Keys
    && (forall id :: id in s.cases ==>
          after.cases[id] == if id in cases then s.cases[id].(contact := None) else s.cases[id])
    && (forall id :: id in s.events ==>
          after.events[id] ==
            if s.events[id].payload != [] && OpenedOneOf(s, cases, id) then WebhookData([], []) else s.events[id])
    && (forall id :: id in s.signals && id in notes ==>
          id in stamps
          && after.signals[id] == s.signals[id].(note := None, noteRedactedAt := Some(stamps[id].at),
                                                 configVersion := Some(stamps[id].version)))
    && (forall id :: id in s.signals && id !in notes ==> after.signals[id] == s.signals[id])
  }

  lemma RedactedMeaning(s: Store, cases: seq<Id>, notes: seq<Id>, stamps: map<Id, Stamp>)
    requires stamps.Keys == Elements(notes)
    ensures Erased(s, Redacted(s, Elements(cases), stamps), cases, notes, stamps)
  {
    var after := Redacted(s, Elements(cases), stamps);
    forall id | id in s.events ensures id in PayloadsOf(s, Elements(cases)) <==>
      s.events[id].payload != [] && OpenedOneOf(s, cases, id)
    {
      if OpenedOneOf(s, cases, id) && s.events[id].payload != [] {
        var k :| k in cases && k in s.cases && s.cases[k].sourceEvent == Some(id);
        assert k in Elements(cases);
      }
    }
    assert forall id :: id in stamps <==> id in notes;
  }

  predicate OpenedLiveOnly(s: Store, event: Id) {
    forall id :: id in s.cases && s.cases[id].sourceEvent == Some(event) ==> !IsTerminal(s.cases[id].state)
  }

  /** A case that has not ended keeps its row, and an event that opened only such cases its payload. */
  predicate LiveUntouched(s: Store, after: Store) {
    && (forall id :: id in s.cases && !IsTerminal(s.cases[id].state) ==>
          id in after.cases && after.cases[id] == s.cases[id])
    && (forall event ::
          event in s.events && OpenedLiveOnly(s, event) ==>
            event in after.events && after.events[event] == s.events[event])
  }

  lemma ErasedOnlyEnded(s: Store, after: Store, cases: seq<Id>, notes: seq<Id>, stamps: map<Id, Stamp>)
    requires Erased(s, after, cases, notes, stamps)
    requires forall id :: id in cases ==> id in s.cases && IsTerminal(s.cases[id].state)
    ensures LiveUntouched(s, after)
  {}

  /** Nothing is held past the cutoff. */
  predicate NothingOverdue(s: Store, cutoff: Instant) {
    && (forall id :: id in s.cases ==> !HoldsTooLong(s.cases[id], cutoff))
    && (forall id :: id in s.signals && s.signals[id].submittedAt < cutoff ==> s.signals[id].note.None?)
  }

  lemma NothingDueMeans(s: Store, cutoff: Instant)
    ensures NothingDue(s, cutoff) <==> NothingOverdue(s, cutoff)
  {
    assert forall id :: id in DueCases(s, cutoff) <==> id in s.cases && HoldsTooLong(s.cases[id], cutoff);
    assert forall id :: id in DueNotes(s, cutoff) <==>
      id in s.signals && s.signals[id].submittedAt < cutoff && s.signals[id].note.Some?;
    if NothingOverdue(s, cutoff) {
      assert forall id :: id !in DueCases(s, cutoff);
      assert forall id :: id !in DueNotes(s, cutoff);
    }
  }

  /** One pass, column by column: which rows, what became of them, and the figures. */
  lemma PassMeaning(s: Store, after: Store, cases: seq<Id>, notes: seq<Id>, report: Report, g: Setting, limit: nat)
    requires OnePass(s, after, cases, notes, report, g, limit)
    ensures LongestEnded(s, g.moment - g.retention, cases, limit)
    ensures LongestNoted(s, g.moment - g.retention, notes, limit)
    ensures Erased(s, after, cases, notes, Stamps(Elements(notes), g)) && LiveUntouched(s, after)
    ensures report == Report(|cases|, |PayloadsToErase(s, cases)|, |notes|, g.version, g.moment - g.retention,
                             !NothingOverdue(after, g.moment - g.retention))
    ensures RedactedAnything(report) <==> cases != [] || notes != []
  {
    hide DueCases, DueNotes, DetectedAt, SubmittedAt, Redacted, PayloadsOf, OldestFirst, NothingDue, NothingOverdue;
    hide Erased, LiveUntouched, LongestNoted, RedactedAnything, HoldsTooLong, PayloadsToErase;
    var cutoff := g.moment - g.retention;
    DueHaveAges(s, cutoff);
    CaseBatchMeaning(s, cutoff, cases, limit);
    NoteBatchMeaning(s, cutoff, notes, limit);
    RedactedMeaning(s, cases, notes, Stamps(Elements(notes), g));
    HeldAreEnded(s, cutoff, cases);
    ErasedOnlyEnded(s, after, cases, notes, Stamps(Elements(notes), g));
    PayloadsCounted(s, cases);
    PassFigures(s, after, cases, notes, report, g, limit);
    PassLeaves(s, after, cases, notes, report, g, limit);
    NothingDueMeans(after, cutoff);
  }

  lemma HeldAreEnded(s: Store, cutoff: Instant, cases: seq<Id>)
    requires forall id :: id in cases ==> id in s.cases && HoldsTooLong(s.cases[id], cutoff)
    ensures forall id :: id in cases ==> id in s.cases && IsTerminal(s.cases[id].state)
  {}

  /** Payloads there are to erase with these cases. */
  function PayloadsToErase(s: Store, cases: seq<Id>): set<Id> {
    set event | event in s.events && s.events[event].payload != [] && OpenedOneOf(s, cases, event)
  }

  lemma PayloadsCounted(s: Store, cases: seq<Id>)
    ensures PayloadsOf(s, Elements(cases)) == PayloadsToErase(s, cases)
  {
    forall event ensures event in PayloadsOf(s, Elements(cases)) <==> event in PayloadsToErase(s, cases) {
      if event in PayloadsToErase(s, cases) {
        var id :| id in cases && id in s.cases && s.cases[id].sourceEvent == Some(event);
        assert id in Elements(cases);
      }
    }
  }

  // ---- Repeating the pass ----

  /** Passes it takes to clear a backlog of n rows: at least one, and one more for each full batch before the last. */
  function PassesNeeded(n: nat, limit: nat): nat
    requires limit > 0
  {
    if n <= limit then 1 else 1 + PassesNeeded(n - limit, limit)
  }

  /** It is the least number of passes, at least one, whose batches hold all n rows. */
  lemma {:induction false} PassesNeededIsLeast(n: nat, limit: nat)
    requires limit > 0
    ensures var p := PassesNeeded(n, limit);
      p >= 1 && n <= p * limit && (p > 1 ==> (p - 1) * limit < n)
  {
    if n > limit {
      PassesNeededIsLeast(n - limit, limit);
      OneMoreBatch(PassesNeeded(n - limit, limit), limit);
    }
  }

  lemma OneMoreBatch(p: int, limit: int)
    ensures (p + 1) * limit == p * limit + limit && (p - 1) * limit == p * limit - limit
  {}

  lemma {:induction false} MoreBatches(p: nat, q: nat, limit: nat)
    requires p <= q
    ensures p * limit <= q * limit
  {
    if p < q {
      MoreBatches(p, q - 1, limit);
      OneMoreBatch(q, limit);
    }
  }

  /** So passes that hold n rows are at least that many, and exactly that many if one fewer would not hold them. */
  lemma PassesExactly(n: nat, limit: nat, p: nat)
    requires limit > 0 && p >= 1 && n <= p * limit
    ensures PassesNeeded(n, limit) <= p
    ensures (p > 1 ==> (p - 1) * limit < n) ==> PassesNeeded(n, limit) == p
  {
    var q := PassesNeeded(n, limit);
    PassesNeededIsLeast(n, limit);
    MoreBatches(p, Max(p, q - 1), limit);
    MoreBatches(q, Max(q, p - 1), limit);
  }

  lemma DueHaveAges(s: Store, cutoff: Instant)
    ensures DueCases(s, cutoff) <= DetectedAt(s).Keys && DueNotes(s, cutoff) <= SubmittedAt(s).Keys
  {}

  lemma SameAges(s: Store, cases: set<Id>, stamps: map<Id, Stamp>)
    ensures var after := Redacted(s, cases, stamps);
      DetectedAt(after) == DetectedAt(s) && SubmittedAt(after) == SubmittedAt(s)
  {}

  lemma JoinElements<T>(a: seq<T>, b: seq<T>)
    ensures Elements(a + b) == Elements(a) + Elements(b)
  {}

  /** What a drain has redacted so far, in the order it did, and what it stamped on the notes. */
  datatype DrainLog = DrainLog(cases: seq<Id>, notes: seq<Id>, stamps: map<Id, Stamp>)

  function Logged(d: DrainLog, cases: seq<Id>, notes: seq<Id>, g: Setting): DrainLog {
    DrainLog(d.cases + cases, d.notes + notes, d.stamps + Stamps(Elements(notes), g))
  }

  /** The store is what redacting the logged rows, each of them once, made of the store at the start. */
  ghost predicate Cleared(s: Store, now: Store, d: DrainLog, payloads: int) {
    && Distinct(d.cases) && Distinct(d.notes) && d.stamps.Keys == Elements(d.notes)
    && now == Redacted(s, Elements(d.cases), d.stamps)
    && payloads == |PayloadsOf(s, Elements(d.cases))|
  }

  const EMPTY_LOG := DrainLog([], [], map[])

  lemma ClearedNone(s: Store)
    ensures Cleared(s, s, EMPTY_LOG, 0)
  {
    assert PayloadsOf(s, {}) == {};
    assert Redacted(s, {}, map[]) == s;
    assert Elements(EMPTY_LOG.cases) == {} && Elements(EMPTY_LOG.notes) == {};
  }

  /** What a pass finds due, told from the start of the drain. */
  lemma DueNow(s: Store, mid: Store, d: DrainLog, payloads: int, cutoff: Instant)
    requires Cleared(s, mid, d, payloads)
    ensures DueCases(mid, cutoff) == DueCases(s, cutoff) - Elements(d.cases) && DetectedAt(mid) == DetectedAt(s)
    ensures DueNotes(mid, cutoff) == DueNotes(s, cutoff) - Elements(d.notes) && SubmittedAt(mid) == SubmittedAt(s)
  {
    RedactedLeaves(s, Elements(d.cases), d.stamps, cutoff);
    SameAges(s, Elements(d.cases), d.stamps);
  }

  /** The batches of one pass, told from the start of the drain: the oldest of what is left. */
  ghost predicate Batches(s: Store, d: DrainLog, cases: seq<Id>, notes: seq<Id>, cutoff: Instant, limit: nat) {
    && DueCases(s, cutoff) <= DetectedAt(s).Keys && DueNotes(s, cutoff) <= SubmittedAt(s).Keys
    && OldestFirst(cases, DueCases(s, cutoff) - Elements(d.cases), DetectedAt(s), limit)
    && OldestFirst(notes, DueNotes(s, cutoff) - Elements(d.notes), SubmittedAt(s), limit)
  }

  lemma PassBatches(
    s: Store, mid: Store, after: Store, d: DrainLog, payloads: int, cases: seq<Id>, notes: seq<Id>, report: Report,
    g: Setting, limit: nat)
    requires Cleared(s, mid, d, payloads) && OnePass(mid, after, cases, notes, report, g, limit)
    ensures Batches(s, d, cases, notes, Cutoff(g), limit)
  {
    hide DueCases, DueNotes, DetectedAt, SubmittedAt, Redacted, PayloadsOf, OldestFirst, Distinct, Elements;
    DueNow(s, mid, d, payloads, Cutoff(g));
    DueHaveAges(s, Cutoff(g));
  }

  lemma NewRows<K(!new)>(earlier: seq<K>, batch: seq<K>, due: set<K>, age: map<K, int>, limit: nat)
    requires due - Elements(earlier) <= age.Keys && OldestFirst(batch, due - Elements(earlier), age, limit)
    requires Distinct(earlier)
    ensures Distinct(earlier + batch) && Elements(earlier + batch) == Elements(earlier) + Elements(batch)
    ensures forall k :: k in batch ==> k in due && k !in earlier
  {
    OldestMembers(batch, due - Elements(earlier), age, limit);
    DistinctJoin(earlier, batch);
    JoinElements(earlier, batch);
  }

  lemma BatchesAreNew(s: Store, d: DrainLog, cases: seq<Id>, notes: seq<Id>, cutoff: Instant, limit: nat)
    requires Batches(s, d, cases, notes, cutoff, limit) && Distinct(d.cases) && Distinct(d.notes)
    ensures Distinct(d.cases + cases) && Elements(d.cases + cases) == Elements(d.cases) + Elements(cases)
    ensures Distinct(d.notes + notes) && Elements(d.notes + notes) == Elements(d.notes) + Elements(notes)
    ensures forall id :: id in cases ==> id in DueCases(s, cutoff) && id !in d.cases
    ensures forall id :: id in notes ==> id in DueNotes(s, cutoff) && id !in d.notes
  {
    hide DueCases, DueNotes, DetectedAt, SubmittedAt, OldestFirst, Distinct;
    NewRows(d.cases, cases, DueCases(s, cutoff), DetectedAt(s), limit);
    NewRows(d.notes, notes, DueNotes(s, cutoff), SubmittedAt(s), limit);
  }

  lemma ClearedNext(
    s: Store, mid: Store, after: Store, d: DrainLog, payloads: int, cases: seq<Id>, notes: seq<Id>, report: Report,
    g: Setting, limit: nat)
    requires Cleared(s, mid, d, payloads) && OnePass(mid, after, cases, notes, report, g, limit)
    ensures Cleared(s, after, Logged(d, cases, notes, g), payloads + report.payloadsRedacted)
  {
    hide DueCases, DueNotes, DetectedAt, SubmittedAt, Redacted, PayloadsOf, OldestFirst, Distinct, Elements, Batches;
    PassBatches(s, mid, after, d, payloads, cases, notes, report, g, limit);
    BatchesAreNew(s, d, cases, notes, Cutoff(g), limit);
    RedactedTwice(s, Elements(d.cases), d.stamps, Elements(cases), Stamps(Elements(notes), g));
    PayloadsSplit(s, Elements(d.cases), d.stamps, Elements(cases));
  }

  /** The setting of the k-th pass; the last one listed stays in force. */
  function SettingAt(settings: seq<Setting>, k: nat): Setting
    requires settings != []
  {
    settings[Min(k, |settings| - 1)]
  }

  /** Each row was redacted by a pass at whose cutoff it was due, and each note bears that pass's stamp. */
  ghost predicate DueAtTheirPass(s: Store, d: DrainLog, settings: seq<Setting>, passes: nat)
    requires settings != []
  {
    && (forall id :: id in d.cases ==> exists k :: 0 <= k < passes && id in DueCases(s, Cutoff(SettingAt(settings, k))))
    && (forall id :: id in d.notes ==> exists k :: 0 <= k < passes && StampedBy(s, d, id, SettingAt(settings, k)))
  }

  predicate StampedBy(s: Store, d: DrainLog, id: Id, g: Setting) {
    id in DueNotes(s, Cutoff(g)) && id in d.stamps && d.stamps[id] == Stamp(g.moment, g.version)
  }

  lemma DueAtOneMore(
    s: Store, d: DrainLog, cases: seq<Id>, notes: seq<Id>, settings: seq<Setting>, passes: nat, limit: nat)
    requires settings != [] && DueAtTheirPass(s, d, settings, passes) && Distinct(d.cases) && Distinct(d.notes)
    requires Batches(s, d, cases, notes, Cutoff(SettingAt(settings, passes)), limit)
    ensures DueAtTheirPass(s, Logged(d, cases, notes, SettingAt(settings, passes)), settings, passes + 1)
  {
    hide DueCases, DueNotes, Batches, Distinct, SettingAt, Cutoff;
    var g := SettingAt(settings, passes);
    var next := Logged(d, cases, notes, g);
    BatchesAreNew(s, d, cases, notes, Cutoff(g), limit);
    forall id | id in next.cases
      ensures exists k :: 0 <= k < passes + 1 && id in DueCases(s, Cutoff(SettingAt(settings, k)))
    {
      if id in cases { assert id in DueCases(s, Cutoff(SettingAt(settings, passes))); }
    }
    forall id | id in next.notes
      ensures exists k :: 0 <= k < passes + 1 && StampedBy(s, next, id, SettingAt(settings, k))
    {
      if id in notes {
        assert StampedBy(s, next, id, SettingAt(settings, passes));
      } else {
        var k :| 0 <= k < passes && StampedBy(s, d, id, SettingAt(settings, k));
        assert StampedBy(s, next, id, SettingAt(settings, k));
      }
    }
  }

  // ---- While the cutoff does not go back ----

  predicate CutoffsRise(settings: seq<Setting>) {
    forall i, j :: 0 <= i < j < |settings| ==> Cutoff(settings[i]) <= Cutoff(settings[j])
  }

  predicate OneCutoff(settings: seq<Setting>) {
    forall i, j :: 0 <= i < j < |settings| ==> Cutoff(settings[i]) == Cutoff(settings[j])
  }

  /** The rows redacted so far are the oldest of those due at this cutoff, in order. */
  ghost predicate InOrder(s: Store, d: DrainLog, cutoff: Instant) {
    && DueCases(s, cutoff) <= DetectedAt(s).Keys && DueNotes(s, cutoff) <= SubmittedAt(s).Keys
    && OldestFirst(d.cases, DueCases(s, cutoff), DetectedAt(s), |d.cases|)
    && OldestFirst(d.notes, DueNotes(s, cutoff), SubmittedAt(s), |d.notes|)
  }

  /** The oldest rows before a bound are still the oldest when more rows, all past the bound, join them. */
  lemma OldestOfMore<K(!new)>(taken: seq<K>, due: set<K>, more: set<K>, age: map<K, int>, bound: int)
    requires due <= more <= age.Keys && OldestFirst(taken, due, age, |taken|)
    requires forall k :: k in more ==> (k in due <==> age[k] < bound)
    ensures OldestFirst(taken, more, age, |taken|)
  {
    SizeMonotone(due, more);
  }

  lemma InOrderLater(s: Store, d: DrainLog, cutoff: Instant, later: Instant)
    requires InOrder(s, d, cutoff) && cutoff <= later
    ensures InOrder(s, d, later)
  {
    hide OldestFirst;
    DueHaveAges(s, later);
    OldestOfMore(d.cases, DueCases(s, cutoff), DueCases(s, later), DetectedAt(s), cutoff);
    OldestOfMore(d.notes, DueNotes(s, cutoff), DueNotes(s, later), SubmittedAt(s), cutoff);
  }

  lemma InOrderNone(s: Store, cutoff: Instant)
    ensures InOrder(s, EMPTY_LOG, cutoff)
  {
    DueHaveAges(s, cutoff);
  }

  /** One more pass at a cutoff no earlier: the rows stay in order, and as many are left as are not logged. */
  lemma InOrderNext(s: Store, d: DrainLog, cases: seq<Id>, notes: seq<Id>, g: Setting, limit: nat)
    requires InOrder(s, d, Cutoff(g)) && Batches(s, d, cases, notes, Cutoff(g), limit)
    ensures InOrder(s, Logged(d, cases, notes, g), Cutoff(g))
    ensures |DueCases(s, Cutoff(g)) - Elements(d.cases)| == |DueCases(s, Cutoff(g))| - |d.cases|
    ensures |DueNotes(s, Cutoff(g)) - Elements(d.notes)| == |DueNotes(s, Cutoff(g))| - |d.notes|
  {
    hide DueCases, DueNotes, DetectedAt, SubmittedAt, OldestFirst;
    var c := Cutoff(g);
    JoinLeft(d.cases, cases, DueCases(s, c), DetectedAt(s), limit);
    JoinLeft(d.notes, notes, DueNotes(s, c), SubmittedAt(s), limit);
  }

  lemma JoinLeft<K(!new)>(taken: seq<K>, batch: seq<K>, due: set<K>, age: map<K, int>, limit: nat)
    requires due <= age.Keys && OldestFirst(taken, due, age, |taken|)
    requires OldestFirst(batch, due - Elements(taken), age, limit)
    ensures OldestFirst(taken + batch, due, age, |taken + batch|)
    ensures |due - Elements(taken)| == |due| - |taken|
  {
    hide OldestFirst;
    OldestJoin(taken, batch, due, age, limit);
    LeftSize(taken, due, age);
  }

  lemma LeftSize<K(!new)>(taken: seq<K>, due: set<K>, age: map<K, int>)
    requires due <= age.Keys && OldestFirst(taken, due, age, |taken|)
    ensures |due - Elements(taken)| == |due| - |taken|
  {
    DistinctSize(taken);
    assert Elements(taken) <= due;
  }

  // ---- Where a drain ends ----

  lemma PassFigures(s: Store, after: Store, cases: seq<Id>, notes: seq<Id>, report: Report, g: Setting, limit: nat)
    requires OnePass(s, after, cases, notes, report, g, limit)
    ensures report.casesRedacted == |cases| == Min(limit, |DueCases(s, Cutoff(g))|)
    ensures report.notesRedacted == |notes| == Min(limit, |DueNotes(s, Cutoff(g))|)
    ensures report.moreRemaining <==> |DueCases(s, Cutoff(g))| > limit || |DueNotes(s, Cutoff(g))| > limit
    ensures report.payloadsRedacted >= 0 && (RedactedAnything(report) <==> |cases| > 0 || |notes| > 0)
  {
    hide DueCases, DueNotes, DetectedAt, SubmittedAt, Redacted;
    if |cases| == 0 { assert PayloadsOf(s, Elements(cases)) == {}; }
  }

  /** A pass that reports nothing more has left nothing due, and one that reports more has left something. */
  lemma PassLeaves(s: Store, after: Store, cases: seq<Id>, notes: seq<Id>, report: Report, g: Setting, limit: nat)
    requires OnePass(s, after, cases, notes, report, g, limit)
    ensures report.moreRemaining <==> !NothingDue(after, Cutoff(g))
  {
    hide DueCases, DueNotes, DetectedAt, SubmittedAt, Redacted, PayloadsOf, OldestFirst, Elements, Cutoff;
    var c := Cutoff(g);
    RedactedLeaves(s, Elements(cases), Stamps(Elements(notes), g), c);
    DueHaveAges(s, c);
    BatchLeaves(cases, DueCases(s, c), DetectedAt(s), limit);
    BatchLeaves(notes, DueNotes(s, c), SubmittedAt(s), limit);
  }

  lemma BatchLeaves<K(!new)>(batch: seq<K>, due: set<K>, age: map<K, int>, limit: nat)
    requires due <= age.Keys && OldestFirst(batch, due, age, limit)
    ensures |due| > limit <==> due - Elements(batch) != {}
  {
    DistinctSize(batch);
    if |due| <= limit {
      WholeSet(batch, due, age);
    } else if due - Elements(batch) == {} {
      forall k | k in due ensures k in Elements(batch) { assert k !in due - Elements(batch); }
      SizeMonotone(due, Elements(batch));
    }
  }

  predicate NothingDue(s: Store, cutoff: Instant) { DueCases(s, cutoff) == {} && DueNotes(s, cutoff) == {} }

  /** A batch limit of zero never gets anywhere: it redacts nothing and says more is left as long as anything is due. */
  lemma ZeroLimitStalls(s: Store, after: Store, cases: seq<Id>, notes: seq<Id>, report: Report, g: Setting)
    requires OnePass(s, after, cases, notes, report, g, 0)
    ensures after == s
    ensures report.moreRemaining <==> !NothingDue(s, Cutoff(g))
  {
    ClearedNone(s);
    assert cases == [] && notes == [];
    assert Stamps(Elements(notes), g) == map[];
  }

  /** Rows that still hold what a redaction erases: what a drain uses up. */
  function Holding(s: Store): nat {
    |set id | id in s.cases && s.cases[id].contact.Some?| + |set id | id in s.signals && s.signals[id].note.Some?|
  }

  lemma HoldingShrinks(s: Store, after: Store, cases: seq<Id>, notes: seq<Id>, report: Report, g: Setting, limit: nat)
    requires OnePass(s, after, cases, notes, report, g, limit) && (|cases| > 0 || |notes| > 0)
    ensures Holding(after) < Holding(s)
  {
    hide PayloadsOf;
    var c0 := set id | id in s.cases && s.cases[id].contact.Some?;
    var c1 := set id | id in after.cases && after.cases[id].contact.Some?;
    var n0 := set id | id in s.signals && s.signals[id].note.Some?;
    var n1 := set id | id in after.signals && after.signals[id].note.Some?;
    assert c1 <= c0 && n1 <= n0;
    SizeMonotone(c1, c0);
    SizeMonotone(n1, n0);
    if |cases| > 0 { assert cases[0] in cases && cases[0] in c0 && cases[0] !in c1; SmallerWithout(c1, c0, cases[0]); }
    else { assert notes[0] in notes && notes[0] in n0 && notes[0] !in n1; SmallerWithout(n1, n0, notes[0]); }
  }

  // ---- A drain, pass by pass ----

  /** Where a drain stands after some passes: `more` is what the last one said, `records` how many went on record. */
  datatype DrainPoint = DrainPoint(now: Store, log: DrainLog, payloads: int, passes: nat, more: bool, records: int)

  function LastCutoff(settings: seq<Setting>, passes: nat): Instant
    requires settings != [] && passes > 0
  {
    Cutoff(SettingAt(settings, passes - 1))
  }

  ghost predicate Going(s: Store, settings: seq<Setting>, limit: nat, at: DrainPoint)
    requires settings != []
  {
    && Cleared(s, at.now, at.log, at.payloads) && DueAtTheirPass(s, at.log, settings, at.passes)
    && |at.log.cases| <= at.passes * limit && |at.log.notes| <= at.passes * limit
    && (at.passes == 0 ==> at.more && at.log == EMPTY_LOG)
    && (!at.more ==> at.passes > 0 && NothingDue(at.now, LastCutoff(settings, at.passes)))
    && (at.more ==> at.records == at.passes) && at.passes - 1 <= at.records <= at.passes
  }

  ghost predicate GoingUp(s: Store, settings: seq<Setting>, at: DrainPoint)
    requires settings != []
  {
    && (at.passes > 0 ==> InOrder(s, at.log, LastCutoff(settings, at.passes)))
    && (at.passes > 0 && at.more ==> !NothingDue(at.now, LastCutoff(settings, at.passes)))
    && at.records == if at.log.cases == [] && at.log.notes == [] then 0 else at.passes
  }

  function Backlog(s: Store, cutoff: Instant): nat { Max(|DueCases(s, cutoff)|, |DueNotes(s, cutoff)|) }

  ghost predicate GoingSteadily(s: Store, settings: seq<Setting>, limit: nat, at: DrainPoint)
    requires settings != []
  {
    var cutoff := Cutoff(settings[0]);
    && |at.log.cases| == Min(|DueCases(s, cutoff)|, at.passes * limit)
    && |at.log.notes| == Min(|DueNotes(s, cutoff)|, at.passes * limit)
    && (at.passes > 0 && at.more ==> at.passes * limit < Backlog(s, cutoff))
    && (at.passes > 1 ==> (at.passes - 1) * limit < Backlog(s, cutoff))
  }

  function PassTo(
    at: DrainPoint, after: Store, cases: seq<Id>, notes: seq<Id>, report: Report, g: Setting): DrainPoint
  {
    DrainPoint(after, Logged(at.log, cases, notes, g), at.payloads + report.payloadsRedacted, at.passes + 1,
               report.moreRemaining, at.records + if RedactedAnything(report) then 1 else 0)
  }

  ghost predicate UnderWay(s: Store, settings: seq<Setting>, limit: nat, at: DrainPoint)
    requires settings != []
  {
    && Going(s, settings, limit, at)
    && (CutoffsRise(settings) ==> GoingUp(s, settings, at))
    && (OneCutoff(settings) ==> GoingSteadily(s, settings, limit, at))
  }

  lemma DrainBegins(s: Store, settings: seq<Setting>, limit: nat)
    requires settings != []
    ensures UnderWay(s, settings, limit, DrainPoint(s, EMPTY_LOG, 0, 0, true, 0))
  {
    hide CutoffsRise, OneCutoff, PayloadsOf, Redacted, DueCases, DueNotes;
    ClearedNone(s);
  }

  /** One pass of a drain. */
  lemma GoesUnderWay(
    s: Store, settings: seq<Setting>, limit: nat, at: DrainPoint, after: Store, cases: seq<Id>, notes: seq<Id>,
    report: Report)
    requires settings != [] && limit > 0 && at.more && UnderWay(s, settings, limit, at)
    requires OnePass(at.now, after, cases, notes, report, SettingAt(settings, at.passes), limit)
    ensures UnderWay(s, settings, limit, PassTo(at, after, cases, notes, report, SettingAt(settings, at.passes)))
    ensures report.casesRedacted == |cases| && report.notesRedacted == |notes|
    ensures report.moreRemaining ==> Holding(after) < Holding(at.now)
  {
    hide Going, GoingUp, GoingSteadily, CutoffsRise, OneCutoff, Holding, OnePass, PassTo, SettingAt;
    GoesOn(s, settings, limit, at, after, cases, notes, report);
    if CutoffsRise(settings) { GoesUp(s, settings, limit, at, after, cases, notes, report); }
    if OneCutoff(settings) {
      SteadyRises(settings);
      GoesSteadily(s, settings, limit, at, after, cases, notes, report);
    }
    PassFigures(at.now, after, cases, notes, report, SettingAt(settings, at.passes), limit);
    if report.moreRemaining {
      HoldingShrinks(at.now, after, cases, notes, report, SettingAt(settings, at.passes), limit);
    }
  }

  lemma GoesOn(
    s: Store, settings: seq<Setting>, limit: nat, at: DrainPoint, after: Store, cases: seq<Id>, notes: seq<Id>,
    report: Report)
    requires settings != [] && limit > 0 && at.more && Going(s, settings, limit, at)
    requires OnePass(at.now, after, cases, notes, report, SettingAt(settings, at.passes), limit)
    ensures Going(s, settings, limit, PassTo(at, after, cases, notes, report, SettingAt(settings, at.passes)))
  {
    hide Cleared, OnePass, DueAtTheirPass, NothingDue, DueCases, DueNotes, RedactedAnything, Batches, SettingAt;
    hide Cutoff;
    var g := SettingAt(settings, at.passes);
    PassFigures(at.now, after, cases, notes, report, g, limit);
    PassLeaves(at.now, after, cases, notes, report, g, limit);
    ClearedNext(s, at.now, after, at.log, at.payloads, cases, notes, report, g, limit);
    PassBatches(s, at.now, after, at.log, at.payloads, cases, notes, report, g, limit);
    LogIsDistinct(s, at.now, at.log, at.payloads);
    DueAtOneMore(s, at.log, cases, notes, settings, at.passes, limit);
    OneMoreBatch(at.passes, limit);
  }

  lemma LogIsDistinct(s: Store, now: Store, d: DrainLog, payloads: int)
    requires Cleared(s, now, d, payloads)
    ensures Distinct(d.cases) && Distinct(d.notes)
  {}

  lemma CutoffLater(settings: seq<Setting>, passes: nat)
    requires settings != [] && CutoffsRise(settings) && passes > 0
    ensures LastCutoff(settings, passes) <= Cutoff(SettingAt(settings, passes))
  {}

  lemma DueLater(s: Store, cutoff: Instant, later: Instant)
    requires cutoff <= later && NothingDue(s, later)
    ensures NothingDue(s, cutoff)
  {
    assert forall id :: id in DueCases(s, cutoff) ==> id in DueCases(s, later);
    assert forall id :: id in DueNotes(s, cutoff) ==> id in DueNotes(s, later);
  }

  lemma GoesUp(
    s: Store, settings: seq<Setting>, limit: nat, at: DrainPoint, after: Store, cases: seq<Id>, notes: seq<Id>,
    report: Report)
    requires settings != [] && limit > 0 && CutoffsRise(settings) && at.more
    requires Going(s, settings, limit, at) && GoingUp(s, settings, at)
    requires OnePass(at.now, after, cases, notes, report, SettingAt(settings, at.passes), limit)
    ensures GoingUp(s, settings, PassTo(at, after, cases, notes, report, SettingAt(settings, at.passes)))
  {
    hide Cleared, OnePass, DueAtTheirPass, DueCases, DueNotes, RedactedAnything, SettingAt, InOrder, Cutoff;
    hide CutoffsRise, Elements, NothingDue;
    var g := SettingAt(settings, at.passes);
    if at.passes == 0 {
      InOrderNone(s, Cutoff(g));
    } else {
      CutoffLater(settings, at.passes);
      InOrderLater(s, at.log, LastCutoff(settings, at.passes), Cutoff(g));
      if NothingDue(at.now, Cutoff(g)) { DueLater(at.now, LastCutoff(settings, at.passes), Cutoff(g)); }
      SomethingDue(at.now, Cutoff(g));
    }
    PassTakes(s, at.now, after, at.log, at.payloads, cases, notes, report, g, limit);
    PassFigures(at.now, after, cases, notes, report, g, limit);
    PassLeaves(at.now, after, cases, notes, report, g, limit);
  }

  lemma SomethingDue(s: Store, cutoff: Instant)
    ensures NothingDue(s, cutoff) <==> |DueCases(s, cutoff)| == 0 && |DueNotes(s, cutoff)| == 0
  {}

  /** What one pass at a cutoff takes, from what was due at it at the start. */
  lemma PassTakes(
    s: Store, mid: Store, after: Store, d: DrainLog, payloads: int, cases: seq<Id>, notes: seq<Id>, report: Report,
    g: Setting, limit: nat)
    requires Cleared(s, mid, d, payloads) && InOrder(s, d, Cutoff(g))
    requires OnePass(mid, after, cases, notes, report, g, limit)
    ensures InOrder(s, Logged(d, cases, notes, g), Cutoff(g))
    ensures var c, n := |DueCases(s, Cutoff(g))| - |d.cases|, |DueNotes(s, Cutoff(g))| - |d.notes|;
      && c >= 0 && n >= 0 && |cases| == Min(limit, c) && |notes| == Min(limit, n)
      && (report.moreRemaining <==> c > limit || n > limit)
  {
    hide Cleared, OnePass, DueCases, DueNotes, Batches, InOrder, Elements, Logged, Cutoff, RedactedAnything;
    PassFigures(mid, after, cases, notes, report, g, limit);
    PassBatches(s, mid, after, d, payloads, cases, notes, report, g, limit);
    DueNow(s, mid, d, payloads, Cutoff(g));
    InOrderNext(s, d, cases, notes, g, limit);
  }

  lemma GoesSteadily(
    s: Store, settings: seq<Setting>, limit: nat, at: DrainPoint, after: Store, cases: seq<Id>, notes: seq<Id>,
    report: Report)
    requires settings != [] && limit > 0 && OneCutoff(settings) && at.more
    requires Going(s, settings, limit, at) && GoingUp(s, settings, at) && GoingSteadily(s, settings, limit, at)
    requires OnePass(at.now, after, cases, notes, report, SettingAt(settings, at.passes), limit)
    ensures GoingSteadily(s, settings, limit, PassTo(at, after, cases, notes, report, SettingAt(settings, at.passes)))
  {
    hide Cleared, DueAtTheirPass, InOrder, OnePass, DueCases, DueNotes, RedactedAnything, Logged, Cutoff, SettingAt;
    hide OneCutoff, NothingDue;
    var g := SettingAt(settings, at.passes);
    SameCutoff(settings, at.passes);
    if at.passes == 0 { InOrderNone(s, Cutoff(g)); }
    PassTakes(s, at.now, after, at.log, at.payloads, cases, notes, report, g, limit);
    var c, n := |DueCases(s, Cutoff(settings[0]))|, |DueNotes(s, Cutoff(settings[0]))|;
    SteadyFigures(c, n, |at.log.cases|, |at.log.notes|, at.passes, limit, |cases|, |notes|, report.moreRemaining);
    LoggedSizes(at.log, cases, notes, g);
  }

  lemma SameCutoff(settings: seq<Setting>, passes: nat)
    requires settings != [] && OneCutoff(settings)
    ensures Cutoff(SettingAt(settings, passes)) == Cutoff(settings[0])
    ensures passes > 0 ==> LastCutoff(settings, passes) == Cutoff(settings[0])
  {}

  lemma LoggedSizes(d: DrainLog, cases: seq<Id>, notes: seq<Id>, g: Setting)
    ensures |Logged(d, cases, notes, g).cases| == |d.cases| + |cases|
    ensures |Logged(d, cases, notes, g).notes| == |d.notes| + |notes|
  {}

  /** Full batches until the last, in figures. */
  lemma SteadyFigures(c: nat, n: nat, casesDone: nat, notesDone: nat, passes: nat, limit: nat, cases: int, notes: int,
                      more: bool)
    requires limit > 0 && casesDone == Min(c, passes * limit) && notesDone == Min(n, passes * limit)
    requires cases == Min(limit, c - casesDone) && notes == Min(limit, n - notesDone)
    requires more <==> c - casesDone > limit || n - notesDone > limit
    ensures casesDone + cases == Min(c, (passes + 1) * limit) && notesDone + notes == Min(n, (passes + 1) * limit)
    ensures more ==> (passes + 1) * limit < Max(c, n)
  {
    OneMoreBatch(passes, limit);
  }

  /** What a drain comes to. */
  ghost predicate DrainDone(s: Store, settings: seq<Setting>, limit: nat, at: DrainPoint)
    requires limit > 0 && settings != []
  {
    && at.passes > 0 && Cleared(s, at.now, at.log, at.payloads) && DueAtTheirPass(s, at.log, settings, at.passes)
    && NothingDue(at.now, LastCutoff(settings, at.passes))
    && PassesNeeded(Max(|at.log.cases|, |at.log.notes|), limit) <= at.passes
    && at.passes - 1 <= at.records <= at.passes
  }

  /** What it comes to besides while the cutoffs do not go back. */
  ghost predicate DrainExact(s: Store, at: DrainPoint, last: Instant) {
    && DueCases(s, last) <= DetectedAt(s).Keys && DueNotes(s, last) <= SubmittedAt(s).Keys
    && OldestFirst(at.log.cases, DueCases(s, last), DetectedAt(s), |DueCases(s, last)|)
    && OldestFirst(at.log.notes, DueNotes(s, last), SubmittedAt(s), |DueNotes(s, last)|)
    && Elements(at.log.cases) == DueCases(s, last) && Elements(at.log.notes) == DueNotes(s, last)
    && at.records == if at.log.cases == [] && at.log.notes == [] then 0 else at.passes
  }

  lemma DrainEnds(s: Store, settings: seq<Setting>, limit: nat, at: DrainPoint)
    requires settings != [] && limit > 0 && !at.more && UnderWay(s, settings, limit, at)
    ensures DrainDone(s, settings, limit, at)
    ensures CutoffsRise(settings) ==> DrainExact(s, at, LastCutoff(settings, at.passes))
    ensures OneCutoff(settings) ==> at.passes == PassesNeeded(Max(|at.log.cases|, |at.log.notes|), limit)
  {
    hide Cleared, DueAtTheirPass, DueCases, DueNotes, DetectedAt, SubmittedAt, OldestFirst, Elements, CutoffsRise;
    hide OneCutoff, Cutoff, SettingAt;
    PassesExactly(Max(|at.log.cases|, |at.log.notes|), limit, at.passes);
    if OneCutoff(settings) {
      SteadyRises(settings);
      SameCutoff(settings, at.passes);
    }
    if CutoffsRise(settings) {
      var last := LastCutoff(settings, at.passes);
      DueNow(s, at.now, at.log, at.payloads, last);
      NoneLeft(at.log.cases, DueCases(s, last), DetectedAt(s));
      NoneLeft(at.log.notes, DueNotes(s, last), SubmittedAt(s));
    }
  }

  /** Every row went at a pass at whose own cutoff it was held too long, a note with that pass's instant and version. */
  ghost predicate InTime(s: Store, d: DrainLog, settings: seq<Setting>, passes: nat)
    requires settings != []
  {
    && (forall id :: id in d.cases ==> id in s.cases && CaseInTime(s.cases[id], settings, passes))
    && (forall id :: id in d.notes ==>
          id in s.signals && id in d.stamps && NoteInTime(s.signals[id], d.stamps[id], settings, passes))
  }

  predicate CaseInTime(c: CaseData, settings: seq<Setting>, passes: nat)
    requires settings != []
  {
    exists k :: (0 <= k < passes
                 && HoldsTooLong(c, SettingAt(settings, k).moment - SettingAt(settings, k).retention))
  }

  predicate NoteInTime(note: SignalData, stamp: Stamp, settings: seq<Setting>, passes: nat)
    requires settings != []
  {
    && note.note.Some?
    && exists k :: (0 <= k < passes
                    && note.submittedAt < SettingAt(settings, k).moment - SettingAt(settings, k).retention
                    && stamp == Stamp(SettingAt(settings, k).moment, SettingAt(settings, k).version))
  }

  lemma InTimeMeans(s: Store, d: DrainLog, settings: seq<Setting>, passes: nat)
    requires settings != [] && DueAtTheirPass(s, d, settings, passes)
    ensures InTime(s, d, settings, passes)
    ensures forall id :: id in d.cases ==> id in s.cases && IsTerminal(s.cases[id].state)
  {
    hide SettingAt;
    forall id | id in d.cases
      ensures id in s.cases && IsTerminal(s.cases[id].state) && CaseInTime(s.cases[id], settings, passes)
    {
      var k :| 0 <= k < passes && id in DueCases(s, Cutoff(SettingAt(settings, k)));
      assert HoldsTooLong(s.cases[id], SettingAt(settings, k).moment - SettingAt(settings, k).retention);
    }
    forall id | id in d.notes
      ensures id in s.signals && id in d.stamps && NoteInTime(s.signals[id], d.stamps[id], settings, passes)
    {
      var k :| 0 <= k < passes && StampedBy(s, d, id, SettingAt(settings, k));
      assert s.signals[id].submittedAt < SettingAt(settings, k).moment - SettingAt(settings, k).retention;
    }
  }

  /** What has gone is what was held past this cutoff. */
  predicate ExactlyOverdue(s: Store, after: Store, cutoff: Instant) {
    && (forall id :: id in s.cases ==>
          id in after.cases && (after.cases[id].contact != s.cases[id].contact <==> HoldsTooLong(s.cases[id], cutoff)))
    && (forall id :: id in s.signals ==>
          && id in after.signals
          && (after.signals[id].note != s.signals[id].note <==>
                s.signals[id].submittedAt < cutoff && s.signals[id].note.Some?))
  }

  lemma ExactlyMeans(s: Store, after: Store, d: DrainLog, cutoff: Instant)
    requires Erased(s, after, d.cases, d.notes, d.stamps)
    requires Elements(d.cases) == DueCases(s, cutoff) && Elements(d.notes) == DueNotes(s, cutoff)
    ensures ExactlyOverdue(s, after, cutoff)
  {
    forall id | id in s.cases
      ensures after.cases[id].contact != s.cases[id].contact <==> HoldsTooLong(s.cases[id], cutoff)
    {
      assert id in d.cases <==> id in Elements(d.cases);
    }
    forall id | id in s.signals
      ensures after.signals[id].note != s.signals[id].note <==>
        s.signals[id].submittedAt < cutoff && s.signals[id].note.Some?
    {
      assert id in d.notes <==> id in Elements(d.notes);
    }
  }

  /** A finished drain, column by column. */
  lemma DrainMeaning(s: Store, settings: seq<Setting>, limit: nat, at: DrainPoint)
    requires limit > 0 && settings != [] && DrainDone(s, settings, limit, at)
    ensures Erased(s, at.now, at.log.cases, at.log.notes, at.log.stamps) && LiveUntouched(s, at.now)
    ensures InTime(s, at.log, settings, at.passes)
    ensures at.payloads == |PayloadsToErase(s, at.log.cases)|
    ensures var g := SettingAt(settings, at.passes - 1);
      && NothingOverdue(at.now, g.moment - g.retention)
      && (DrainExact(s, at, LastCutoff(settings, at.passes)) ==> ExactlyOverdue(s, at.now, g.moment - g.retention))
  {
    hide DueCases, DueNotes, DetectedAt, SubmittedAt, Redacted, PayloadsOf, OldestFirst, NothingDue, NothingOverdue;
    hide Erased, LiveUntouched, DueAtTheirPass, InTime, ExactlyOverdue, SettingAt, PayloadsToErase, PassesNeeded;
    RedactedMeaning(s, at.log.cases, at.log.notes, at.log.stamps);
    InTimeMeans(s, at.log, settings, at.passes);
    ErasedOnlyEnded(s, at.now, at.log.cases, at.log.notes, at.log.stamps);
    PayloadsCounted(s, at.log.cases);
    NothingDueMeans(at.now, LastCutoff(settings, at.passes));
    if DrainExact(s, at, LastCutoff(settings, at.passes)) {
      ExactlyMeans(s, at.now, at.log, LastCutoff(settings, at.passes));
    }
  }

  lemma NoneLeft<K(!new)>(taken: seq<K>, due: set<K>, age: map<K, int>)
    requires due <= age.Keys && OldestFirst(taken, due, age, |taken|) && due - Elements(taken) == {}
    ensures |taken| == |due| && Elements(taken) == due
  {
    LeftSize(taken, due, age);
  }

  lemma PassesTaken(s: Store, settings: seq<Setting>, limit: nat, at: DrainPoint)
    requires limit > 0 && settings != [] && DrainDone(s, settings, limit, at)
    ensures at.passes > 0
  {}

  lemma SteadyRises(settings: seq<Setting>)
    requires OneCutoff(settings)
    ensures CutoffsRise(settings)
  {}

  lemma SameStamps(notes: seq<Id>, g: Setting)
    ensures Stamps(Elements(notes), g) == map id | id in notes :: Stamp(g.moment, g.version)
  {
    assert forall id :: id in Elements(notes) <==> id in notes;
  }

  lemma NoPayloads(s: Store)
    ensures PayloadsOf(s, {}) == {}
  {}

  lemma RedactedByCases(s: Store, batch: seq<Id>, cutoff: Instant, limit: nat)
    requires DueCases(s, cutoff) <= DetectedAt(s).Keys
    requires OldestFirst(batch, DueCases(s, cutoff), DetectedAt(s), limit)
    ensures LongestEnded(s, cutoff, batch, limit)
    ensures Erased(s, Redacted(s, Elements(batch), map[]), batch, [], map[])
    ensures LiveUntouched(s, Redacted(s, Elements(batch), map[]))
    ensures |PayloadsOf(s, Elements(batch))| == |PayloadsToErase(s, batch)|
  {
    hide DueCases, DetectedAt, Redacted, PayloadsOf, OldestFirst, Erased, LiveUntouched, HoldsTooLong, PayloadsToErase;
    CaseBatchMeaning(s, cutoff, batch, limit);
    var none: map<Id, Stamp> := map[];
    assert none.Keys == Elements([]);
    RedactedMeaning(s, batch, [], none);
    HeldAreEnded(s, cutoff, batch);
    ErasedOnlyEnded(s, Redacted(s, Elements(batch), none), batch, [], none);
    PayloadsCounted(s, batch);
  }

  lemma CasesRedacted(s: Store, batch: seq<Id>, erase: set<Id>)
    requires erase == PayloadsOf(s, Elements(batch))
    ensures Redacted(s, Elements(batch), map[]) ==
      Store(map id | id in s.cases :: if id in batch then s.cases[id].(contact := None) else s.cases[id],
            map id | id in s.events :: if id in erase then WebhookData([], []) else s.events[id], s.signals)
  {
    hide PayloadsOf;
    assert Redacted(s, Elements(batch), map[]).signals == s.signals;
  }

  lemma NotesRedacted(s: Store, batch: seq<Id>, g: Setting)
    ensures Redacted(s, {}, Stamps(Elements(batch), g)) ==
      s.(signals := map id | id in s.signals ::
           if id in batch
           then s.signals[id].(note := None, noteRedactedAt := Some(g.moment), configVersion := Some(g.version))
           else s.signals[id])
  {
    NoPayloads(s);
    var after := Redacted(s, {}, Stamps(Elements(batch), g));
    assert after.cases == s.cases && after.events == s.events;
  }

  lemma RedactedByNotes(s: Store, batch: seq<Id>, g: Setting, limit: nat)
    requires DueNotes(s, Cutoff(g)) <= SubmittedAt(s).Keys
    requires OldestFirst(batch, DueNotes(s, Cutoff(g)), SubmittedAt(s), limit)
    ensures LongestNoted(s, g.moment - g.retention, batch, limit)
    ensures Erased(s, Redacted(s, {}, Stamps(Elements(batch), g)), [], batch,
                   map id | id in batch :: Stamp(g.moment, g.version))
  {
    hide DueNotes, SubmittedAt, Redacted, OldestFirst, Erased, LongestNoted;
    NoteBatchMeaning(s, Cutoff(g), batch, limit);
    var none: seq<Id> := [];
    assert Elements(none) == {};
    RedactedMeaning(s, none, batch, Stamps(Elements(batch), g));
    SameStamps(batch, g);
  }

  class RetentionSweep {
    var cases: map<Id, CaseData>
    var events: map<Id, WebhookData>
    var signals: map<Id, SignalData>
    var audit: seq<Report>

    function Rows(): Store reads this { Store(cases, events, signals) }

    constructor (s: Store)
      ensures Rows() == s && audit == []
    {
      cases, events, signals, audit := s.cases, s.events, s.signals, [];
    }

    /** Redacts a bounded batch of cases and the payloads that opened them; says whether more are due. */
    method RedactCases(cutoff: Instant, limit: nat) returns (batch: seq<Id>, payloads: nat, more: bool)
      modifies this`cases, this`events
      ensures LongestEnded(old(Rows()), cutoff, batch, limit)
      ensures Erased(old(Rows()), Rows(), batch, [], map[]) && LiveUntouched(old(Rows()), Rows())
      ensures payloads == |PayloadsToErase(old(Rows()), batch)|
      ensures OldestFirst(batch, DueCases(old(Rows()), cutoff), DetectedAt(old(Rows())), limit)
      ensures Rows() == Redacted(old(Rows()), Elements(batch), map[])
      ensures payloads == |PayloadsOf(old(Rows()), Elements(batch))|
      ensures more <==> |DueCases(old(Rows()), cutoff)| > limit
    {
      hide OldestFirst, LongestEnded, Erased, LiveUntouched, PayloadsToErase, DueCases, DetectedAt, PayloadsOf;
      DueHaveAges(Rows(), cutoff);
      batch, more := ReadBatch(DueCases(Rows(), cutoff), DetectedAt(Rows()), limit);
      var erase := PayloadsOf(Rows(), Elements(batch));
      payloads := |erase|;
      cases := map id | id in cases :: if id in batch then cases[id].(contact := None) else cases[id];
      events := map id | id in events :: if id in erase then WebhookData([], []) else events[id];
      CasesRedacted(old(Rows()), batch, erase);
      RedactedByCases(old(Rows()), batch, cutoff, limit);
    }

    /** Deletes a bounded batch of notes; says how many, and whether more are due. */
    method RedactNotes(g: Setting, limit: nat) returns (batch: seq<Id>, more: bool)
      modifies this`signals
      ensures LongestNoted(old(Rows()), g.moment - g.retention, batch, limit)
      ensures Erased(old(Rows()), Rows(), [], batch, map id | id in batch :: Stamp(g.moment, g.version))
      ensures OldestFirst(batch, DueNotes(old(Rows()), Cutoff(g)), SubmittedAt(old(Rows())), limit)
      ensures Rows() == Redacted(old(Rows()), {}, Stamps(Elements(batch), g))
      ensures more <==> |DueNotes(old(Rows()), Cutoff(g))| > limit
    {
      hide OldestFirst, LongestNoted, Erased, DueNotes, SubmittedAt, PayloadsOf, Stamps;
      DueHaveAges(Rows(), Cutoff(g));
      batch, more := ReadBatch(DueNotes(Rows(), Cutoff(g)), SubmittedAt(Rows()), limit);
      signals := map id | id in signals ::
        if id in batch
        then signals[id].(note := None, noteRedactedAt := Some(g.moment), configVersion := Some(g.version))
        else signals[id];
      NotesRedacted(old(Rows()), batch, g);
      RedactedByNotes(old(Rows()), batch, g, limit);
    }

    /** One sweep. It goes on record only if it redacted something. */
    method Sweep(g: Setting, limit: nat) returns (report: Report, ghost caseBatch: seq<Id>, ghost noteBatch: seq<Id>)
      modifies this
      ensures OnePass(old(Rows()), Rows(), caseBatch, noteBatch, report, g, limit)
      ensures LongestEnded(old(Rows()), g.moment - g.retention, caseBatch, limit)
      ensures LongestNoted(old(Rows()), g.moment - g.retention, noteBatch, limit)
      ensures Erased(old(Rows()), Rows(), caseBatch, noteBatch, map id | id in noteBatch :: Stamp(g.moment, g.version))
      ensures LiveUntouched(old(Rows()), Rows())
      ensures report == Report(|caseBatch|, |PayloadsToErase(old(Rows()), caseBatch)|, |noteBatch|, g.version,
                               g.moment - g.retention, !NothingOverdue(Rows(), g.moment - g.retention))
      ensures audit == old(audit) + if caseBatch != [] || noteBatch != [] then [report] else []
      ensures audit == if RedactedAnything(report) then old(audit) + [report] else old(audit)
    {
      hide Redacted, PayloadsOf, OldestFirst, DueCases, DueNotes, DetectedAt, SubmittedAt, LongestEnded, LongestNoted;
      hide Erased, LiveUntouched, NothingOverdue, PayloadsToErase;
      ghost var before := Rows();
      var casesDone, payloads, moreCases := RedactCases(Cutoff(g), limit);
      ghost var mid := Rows();
      NotesUntouched(before, Elements(casesDone), Cutoff(g));
      var notesDone, moreNotes := RedactNotes(g, limit);
      BothAtOnce(before, Elements(casesDone), Stamps(Elements(notesDone), g));
      report := Report(|casesDone|, payloads, |notesDone|, g.version, Cutoff(g), moreCases || moreNotes);
      caseBatch, noteBatch := casesDone, notesDone;
      PassMeaning(before, Rows(), caseBatch, noteBatch, report, g, limit);
      SameStamps(noteBatch, g);
      if RedactedAnything(report) { audit := audit + [report]; }
    }

    /**
      Repeats the sweep, each pass under its own instant and configuration, until one reports nothing more to do.
      Every row is redacted once, by a pass at whose cutoff it was due, and nothing due at the last cutoff is left.
      When the cutoffs do not go back, what is gone is exactly what was due at the last one, oldest first, and only
      an empty backlog leaves no record; when they stay the same, it takes exactly the passes its batches need.
    */
    method Drain(settings: seq<Setting>, limit: nat)
      returns (passes: nat, casesDone: nat, payloadsDone: nat, notesDone: nat, ghost log: DrainLog)
      requires limit > 0 && settings != []
      modifies this
      ensures var at := DrainPoint(Rows(), log, payloadsDone, passes, false, |audit| - |old(audit)|);
        && DrainDone(old(Rows()), settings, limit, at)
        && (CutoffsRise(settings) ==> DrainExact(old(Rows()), at, LastCutoff(settings, passes)))
      ensures Erased(old(Rows()), Rows(), log.cases, log.notes, log.stamps) && LiveUntouched(old(Rows()), Rows())
      ensures passes > 0 && InTime(old(Rows()), log, settings, passes)
      ensures var last := SettingAt(settings, passes - 1);
        && NothingOverdue(Rows(), last.moment - last.retention)
        && (CutoffsRise(settings) ==> ExactlyOverdue(old(Rows()), Rows(), last.moment - last.retention))
      ensures casesDone == |log.cases| && notesDone == |log.notes|
      ensures payloadsDone == |PayloadsToErase(old(Rows()), log.cases)|
      ensures OneCutoff(settings) ==> passes == PassesNeeded(Max(casesDone, notesDone), limit)
    {
      hide OldestFirst, OnePass, Elements, UnderWay, CutoffsRise, OneCutoff, Holding, DrainDone, DrainExact, Erased;
      hide LiveUntouched, InTime, NothingOverdue, ExactlyOverdue, PayloadsToErase, LongestEnded, LongestNoted;
      hide RedactedAnything, PassesNeeded;
      ghost var s := Rows();
      passes, casesDone, payloadsDone, notesDone, log := 0, 0, 0, 0, EMPTY_LOG;
      DrainBegins(s, settings, limit);
      var more := true;
      ghost var at := DrainPoint(s, log, 0, 0, true, 0);
      while more
        invariant |old(audit)| <= |audit|
        invariant at == DrainPoint(Rows(), log, payloadsDone, passes, more, |audit| - |old(audit)|)
        invariant casesDone == |log.cases| && notesDone == |log.notes|
        invariant UnderWay(s, settings, limit, at)
        decreases if more then 1 + Holding(Rows()) else 0
      {
        var g := settings[Min(passes, |settings| - 1)];
        var report;
        ghost var cases, notes;
        report, cases, notes := Sweep(g, limit);
        GoesUnderWay(s, settings, limit, at, Rows(), cases, notes, report);
        at := PassTo(at, Rows(), cases, notes, report, g);
        log := Logged(log, cases, notes, g);
        passes := passes + 1;
        casesDone, notesDone := casesDone + report.casesRedacted, notesDone + report.notesRedacted;
        payloadsDone := payloadsDone + report.payloadsRedacted;
        more := report.moreRemaining;
      }
      DrainEnds(s, settings, limit, at);
      DrainMeaning(s, settings, limit, at);
      PassesTaken(s, settings, limit, at);
    }
  }
}
