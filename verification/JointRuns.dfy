/** Cases and promises in one run: what a promise's row says about its case, and what a missed promise does to it. */
module JointRuns {
  import opened Common
  import opened Transitions
  import opened CaseModel
  import opened CaseInvariants
  import opened Bounds
  import opened CaseRuns
  import opened JobQueue
  import opened PromiseModel
  import opened PromiseRuns
  import opened PromiseLifecycle

  datatype World = World(files: map<CaseId, CaseFile>, book: Book)

  /** A transaction on a case, one on the promise rows, or the read that finds no money and concerns both. */
  datatype WorldEvent =
    | OnCaseFile(id: CaseId, moment: Moment)
    | OnBook(event: PromiseEvent)
    | UnpaidAndDisposed(id: CaseId, confirmed: bool, now: Instant, limits: Limits)

  /** Whether an unpaid read marks the case's promise missed. */
  predicate Misses(b: Book, id: CaseId, confirmed: bool) {
    confirmed && id in b.promises && b.promises[id].status in PENDING
  }

  /** The miss and the disposition it asks for commit together, or neither does. */
  function WorldStep(w: World, e: WorldEvent): World {
    match e
    case OnCaseFile(id, moment) => if id in w.files then w.(files := w.files[id := Step(w.files[id], moment)]) else w
    case OnBook(event) => w.(book := BookStep(w.book, event))
    case UnpaidAndDisposed(id, confirmed, now, limits) =>
      if !Misses(w.book, id, confirmed) || id !in w.files then w
      else
        var (g, answer) := DisposeMissed(w.files[id], limits, now);
        if answer.Raised? then w
        else World(w.files[id := g], Miss(w.book, id, confirmed, now))
  }

  function WorldAt(w: World, run: seq<WorldEvent>, k: nat): World
    requires k <= |run|
  {
    if k == 0 then w else WorldStep(WorldAt(w, run, k - 1), run[k - 1])
  }

  predicate Proper(e: WorldEvent) {
    match e
    case OnCaseFile(_, moment) => WellFormed(moment)
    case OnBook(event) => Orderly(event) && !event.UnpaidRead?
    case UnpaidAndDisposed(_, _, _, _) => true
  }

  predicate ProperRun(run: seq<WorldEvent>) { forall e :: e in run ==> Proper(e) }

  ghost predicate WorldInvariant(w: World) {
    (forall id :: id in w.files ==> Invariant(w.files[id])) && BookInvariant(w.book)
  }

  /** The case was in this state at some point of the run so far: a committed read, however long ago it was made. */
  ghost predicate WasIn(w: World, run: seq<WorldEvent>, k: nat, id: CaseId, state: CaseState)
    requires k <= |run|
  {
    exists j :: 0 <= j <= k && id in WorldAt(w, run, j).files && WorldAt(w, run, j).files[id].row.state == state
  }

  /** An event that acts on the state of a case, as it was read. */
  predicate ActsOn(e: PromiseEvent, id: CaseId, state: CaseState) {
    || (e.SweepPass? && id in e.seen && e.seen[id] == state)
    || (e.CaseEnded? && e.id == id && e.state == state)
  }

  /** Every state a sweep or a caller acts on was read from the case. */
  ghost predicate ReadsTrue(w: World, run: seq<WorldEvent>) {
    forall k, id, state :: 0 <= k < |run| && run[k].OnBook? && ActsOn(run[k].event, id, state) ==>
      WasIn(w, run, k, id, state)
  }

  // ---- Steps ----

  lemma MissKeeps(b: Book, id: CaseId, confirmed: bool, now: Instant)
    requires BookInvariant(b)
    ensures BookInvariant(Miss(b, id, confirmed, now)) && RowsMove(b, Miss(b, id, confirmed, now))
  {
    BookStepKeeps(b, UnpaidRead(id, confirmed, now));
  }

  lemma WorldStepKeeps(w: World, e: WorldEvent)
    requires WorldInvariant(w) && Proper(e)
    ensures WorldInvariant(WorldStep(w, e)) && WorldStep(w, e).files.Keys == w.files.Keys
    ensures RowsMove(w.book, WorldStep(w, e).book)
  {
    hide Invariant, BookInvariant, Step, BookStep, DisposeMissed, Miss, RowsMove;
    BookStays(w.book);
    match e
    case OnCaseFile(id, moment) => if id in w.files { StepKeepsInvariant(w.files[id], moment); }
    case OnBook(event) => BookStepKeeps(w.book, event);
    case UnpaidAndDisposed(id, confirmed, now, limits) =>
      MissKeeps(w.book, id, confirmed, now);
      if id in w.files { DispositionMeaning(w.files[id], limits, now); }
  }

  lemma {:induction false} WorldRunKeeps(w: World, run: seq<WorldEvent>, k: nat)
    requires WorldInvariant(w) && ProperRun(run) && k <= |run|
    ensures WorldInvariant(WorldAt(w, run, k)) && WorldAt(w, run, k).files.Keys == w.files.Keys
  {
    hide WorldInvariant, WorldStep, RowsMove;
    if k > 0 {
      WorldRunKeeps(w, run, k - 1);
      WorldStepKeeps(WorldAt(w, run, k - 1), run[k - 1]);
    }
  }

  /** An ended case stays where it ended, unless it is reconciled. */
  lemma EndedStepsOn(w: World, e: WorldEvent, id: CaseId)
    requires WorldInvariant(w) && Proper(e) && id in w.files && IsTerminal(w.files[id].row.state)
    ensures id in WorldStep(w, e).files
    ensures WorldStep(w, e).files[id].row.state in {w.files[id].row.state, Recovered}
  {
    hide Invariant, BookInvariant, Step, BookStep, DisposeMissed, Miss;
    match e
    case OnCaseFile(other, moment) => if other == id { StepFacts(w.files[id], moment); }
    case OnBook(event) =>
    case UnpaidAndDisposed(other, confirmed, now, limits) =>
      if other == id { DispositionOfEnded(w.files[id], limits, now); }
  }

  lemma DispositionOfEnded(f: CaseFile, limits: Limits, now: Instant)
    requires Invariant(f) && IsTerminal(f.row.state)
    ensures DisposeMissed(f, limits, now).0 == f
  {
    hide Invariant, DisposeMissed;
    DispositionCases(f, limits, now);
    DispositionMeaning(f, limits, now);
  }

  lemma {:induction false} EndedGoesOn(w: World, run: seq<WorldEvent>, id: CaseId, j: nat, k: nat)
    requires WorldInvariant(w) && ProperRun(run) && j <= k <= |run|
    requires id in WorldAt(w, run, j).files && IsTerminal(WorldAt(w, run, j).files[id].row.state)
    ensures id in WorldAt(w, run, k).files
    ensures WorldAt(w, run, k).files[id].row.state in {WorldAt(w, run, j).files[id].row.state, Recovered}
  {
    hide WorldInvariant, WorldStep;
    if j < k {
      EndedGoesOn(w, run, id, j, k - 1);
      WorldRunKeeps(w, run, k - 1);
      EndedStepsOn(WorldAt(w, run, k - 1), run[k - 1], id);
    }
  }

  /** A voiding names the state the event that did it acted on. */
  lemma VoidedBecause(b: Book, e: PromiseEvent, id: CaseId, state: CaseState)
    requires BookInvariant(b) && Orderly(e)
    requires id in BookStep(b, e).promises && BookStep(b, e).promises[id].voidedBy == Some(state)
    requires id in b.promises ==> b.promises[id].voidedBy.None?
    ensures Voids(state)
    ensures ActsOn(e, id, state)
  {
    hide BookInvariant, SweepRows, QueueStep, ReviewWaits, RowAsks;
    if e.SweepPass? && Claimable(b, e.claimed, e.now) {
      PassClosedForm(b, e.claimed, e.now, e.seen);
      if id in e.claimed { assert id in DuePromises(b, e.now); }
    }
  }

  lemma VoidedStays(w: World, e: WorldEvent, id: CaseId)
    requires WorldInvariant(w) && Proper(e) && id in w.book.promises && w.book.promises[id].voidedBy.Some?
    ensures id in WorldStep(w, e).book.promises && WorldStep(w, e).book.promises[id] == w.book.promises[id]
  {
    hide WorldStep, Invariant, PromiseChecksHold, EscalationsKeyed;
    WorldStepKeeps(w, e);
  }

  lemma NewlyVoided(w: World, e: WorldEvent, id: CaseId, state: CaseState)
    requires WorldInvariant(w) && Proper(e)
    requires id in WorldStep(w, e).book.promises && WorldStep(w, e).book.promises[id].voidedBy == Some(state)
    requires id in w.book.promises ==> w.book.promises[id].voidedBy.None?
    ensures e.OnBook? && ActsOn(e.event, id, state) && Voids(state)
  {
    hide Invariant, BookStep, DisposeMissed, BookInvariant, ActsOn;
    if e.OnBook? { VoidedBecause(w.book, e.event, id, state); }
  }

  lemma ReadWasTrue(w: World, run: seq<WorldEvent>, k: nat, id: CaseId, state: CaseState)
    requires ReadsTrue(w, run) && k < |run| && run[k].OnBook? && ActsOn(run[k].event, id, state)
    ensures WasIn(w, run, k, id, state)
  {}

  lemma ReadLater(w: World, run: seq<WorldEvent>, k: nat, id: CaseId, state: CaseState)
    requires k < |run| && WasIn(w, run, k, id, state)
    ensures WasIn(w, run, k + 1, id, state)
  {
    hide WorldAt;
    var j :| 0 <= j <= k && id in WorldAt(w, run, j).files && WorldAt(w, run, j).files[id].row.state == state;
    assert j <= k + 1;
  }

  /** A case once read in an ended state is still in it, or reconciled. */
  lemma WasInMeans(w: World, run: seq<WorldEvent>, k: nat, id: CaseId, state: CaseState)
    requires WorldInvariant(w) && ProperRun(run) && k <= |run| && WasIn(w, run, k, id, state) && Voids(state)
    ensures id in WorldAt(w, run, k).files && WorldAt(w, run, k).files[id].row.state in {state, Recovered}
  {
    hide WorldAt, WorldInvariant;
    var j :| 0 <= j <= k && id in WorldAt(w, run, j).files && WorldAt(w, run, j).files[id].row.state == state;
    EndedGoesOn(w, run, id, j, k);
  }

  // ---- What holds over joint runs ----

  /**
    The state a voided promise names is one its case really ended in, other than recovered; the case is still in it,
    or has been reconciled since.
  */
  lemma {:induction false} VoidedNamesTheEnding(w: World, run: seq<WorldEvent>, id: CaseId, k: nat)
    requires WorldInvariant(w) && w.book == EMPTY_BOOK && ProperRun(run) && ReadsTrue(w, run) && k <= |run|
    requires var b := WorldAt(w, run, k).book; id in b.promises && b.promises[id].voidedBy.Some?
    ensures var state := WorldAt(w, run, k).book.promises[id].voidedBy.value;
      && Voids(state) && WasIn(w, run, k, id, state)
      && id in WorldAt(w, run, k).files && WorldAt(w, run, k).files[id].row.state in {state, Recovered}
  {
    hide WorldInvariant, BookStep, BookInvariant, DisposeMissed, Step, ReadsTrue, RowsMove, WasIn;
    if k > 0 {
      var before := WorldAt(w, run, k - 1);
      var state := WorldAt(w, run, k).book.promises[id].voidedBy.value;
      WorldRunKeeps(w, run, k - 1);
      if id in before.book.promises && before.book.promises[id].voidedBy.Some? {
        VoidedStays(before, run[k - 1], id);
        VoidedNamesTheEnding(w, run, id, k - 1);
        ReadLater(w, run, k - 1, id, state);
        EndedStepsOn(before, run[k - 1], id);
      } else {
        NewlyVoided(before, run[k - 1], id, state);
        ReadWasTrue(w, run, k - 1, id, state);
        ReadLater(w, run, k - 1, id, state);
        WasInMeans(w, run, k, id, state);
      }
    }
  }

  /**
    What a missed promise makes of its case. Inside the window, a case with a decision cycle and a message left goes
    back to deciding if its state lets it; one with nothing left is stopped, for the limit it has used up, and no
    link it sent out works any more. Otherwise the case is left alone.
  */
  predicate DisposedOf(f: CaseFile, g: CaseFile, limits: Limits, now: Instant) {
    if now >= f.row.windowEndAt then g == f
    else if f.row.cycles < limits.maxRecoveryAttempts && f.row.messages < limits.maxCustomerMessages then
      if f.row.state in {Diagnosed, PolicyCheck, Executing, WaitingForOutcome}
      then g.row.state == DecisionPending && g.row.version == f.row.version + 1 && g.tokens == f.tokens
           && g.row.cycles == f.row.cycles + 1 <= limits.maxRecoveryAttempts
      else g == f
    else if IsTerminal(f.row.state) then g == f
    else
      && g.row.state == Stopped && g.row.version == f.row.version + 1 && g.row.cycles == f.row.cycles
      && NoneLive(g.tokens)
      && g.row.terminalReason == Some(if f.row.cycles >= limits.maxRecoveryAttempts
                                      then DecisionCycleLimitReached else MaxAttemptsReached)
  }

  lemma DispositionDisposes(f: CaseFile, limits: Limits, now: Instant)
    requires Invariant(f) && DisposeMissed(f, limits, now).1.Success?
    ensures DisposedOf(f, DisposeMissed(f, limits, now).0, limits, now)
  {
    hide LogAgrees, TokensAgree, Transact, NoneLive, RuleFor;
    AttemptsBoundNeverAnswered(f.row, limits, now);
    DispositionMeaning(f, limits, now);
    DispositionCases(f, limits, now);
    StepFacts(f, Moment(now, Transition(MissedMove(f.row, BoundReached(f.row, limits, now)))));
  }

  /**
    A read that finds no money, column by column: it changes something only for a pending promise whose follow-up was
    confirmed, and then it marks the promise missed and disposes of the case, both or neither.
  */
  lemma UnpaidReadMeaning(w: World, id: CaseId, confirmed: bool, now: Instant, limits: Limits)
    requires WorldInvariant(w)
    ensures var after := WorldStep(w, UnpaidAndDisposed(id, confirmed, now, limits));
      || after == w
      || (&& confirmed && id in w.files && id in w.book.promises
          && w.book.promises[id].status in {Recorded, FollowUpScheduled}
          && after.files.Keys == w.files.Keys
          && (forall other :: other in w.files && other != id ==> after.files[other] == w.files[other])
          && DisposedOf(w.files[id], after.files[id], limits, now)
          && after.book == w.book.(promises := w.book.promises[id := w.book.promises[id].(status := Missed,
                                                                                         missedAt := Some(now))]))
  {
    hide Invariant, DisposeMissed, BookInvariant, DisposedOf;
    if Misses(w.book, id, confirmed) && id in w.files && DisposeMissed(w.files[id], limits, now).1.Success? {
      DispositionDisposes(w.files[id], limits, now);
    }
  }

  /** The k-th event marked the case's promise missed and, in the same transaction, disposed of that case. */
  ghost predicate MissedAndDisposed(w: World, run: seq<WorldEvent>, id: CaseId, k: nat)
    requires k < |run|
  {
    var before, after, e := WorldAt(w, run, k), WorldAt(w, run, k + 1), run[k];
    && e.UnpaidAndDisposed? && e.id == id && e.confirmed
    && id in before.book.promises && before.book.promises[id].status in PENDING
    && id in after.book.promises && after.book.promises[id].status == Missed
    && after.book.promises[id].missedAt == Some(e.now)
    && id in before.files && id in after.files
    && DisposedOf(before.files[id], after.files[id], e.limits, e.now)
  }

  /** Behind every missed promise stands exactly one transaction that marked it and disposed of its own case. */
  lemma MissedWasDisposed(w: World, run: seq<WorldEvent>, id: CaseId, k: nat)
    requires WorldInvariant(w) && w.book == EMPTY_BOOK && ProperRun(run) && k <= |run|
    requires var b := WorldAt(w, run, k).book; id in b.promises && b.promises[id].status == Missed
    ensures exists j :: (0 <= j < k && MissedAndDisposed(w, run, id, j)
                         && forall i :: 0 <= i < k && MissedAndDisposed(w, run, id, i) ==> i == j)
  {
    hide WorldInvariant, WorldStep, WorldAt, DisposedOf;
    var j := MissedOnce(w, run, id, k);
    forall i | 0 <= i < k && MissedAndDisposed(w, run, id, i) ensures i == j {
      if i < j { MissedStays(w, run, id, i + 1, j); }
      if j < i { MissedStays(w, run, id, j + 1, i); }
    }
  }

  lemma {:induction false} MissedOnce(w: World, run: seq<WorldEvent>, id: CaseId, k: nat) returns (j: nat)
    requires WorldInvariant(w) && w.book == EMPTY_BOOK && ProperRun(run) && k <= |run|
    requires var b := WorldAt(w, run, k).book; id in b.promises && b.promises[id].status == Missed
    ensures j < k && MissedAndDisposed(w, run, id, j)
  {
    hide WorldInvariant, BookStep, BookInvariant, DisposeMissed, Step, RowsMove, MissedAndDisposed;
    if k > 0 {
      var before := WorldAt(w, run, k - 1);
      WorldRunKeeps(w, run, k - 1);
      if id in before.book.promises && before.book.promises[id].status == Missed {
        j := MissedOnce(w, run, id, k - 1);
      } else {
        NewlyMissed(w, run, id, k - 1);
        j := k - 1;
      }
    }
  }

  /** A missed promise stays missed. */
  lemma {:induction false} MissedStays(w: World, run: seq<WorldEvent>, id: CaseId, i: nat, j: nat)
    requires WorldInvariant(w) && ProperRun(run) && i <= j <= |run|
    requires var b := WorldAt(w, run, i).book; id in b.promises && b.promises[id].status == Missed
    ensures var b := WorldAt(w, run, j).book; id in b.promises && b.promises[id].status == Missed
  {
    hide WorldInvariant, WorldStep;
    if i < j {
      MissedStays(w, run, id, i, j - 1);
      WorldRunKeeps(w, run, j - 1);
      WorldStepKeeps(WorldAt(w, run, j - 1), run[j - 1]);
    }
  }

  lemma NewlyMissed(w: World, run: seq<WorldEvent>, id: CaseId, k: nat)
    requires k < |run| && WorldInvariant(WorldAt(w, run, k)) && Proper(run[k])
    requires id in WorldAt(w, run, k + 1).book.promises && WorldAt(w, run, k + 1).book.promises[id].status == Missed
    requires id in WorldAt(w, run, k).book.promises ==> WorldAt(w, run, k).book.promises[id].status != Missed
    ensures MissedAndDisposed(w, run, id, k)
  {
    hide Invariant, Step, DisposeMissed, BookInvariant, BookStep, DisposedOf;
    var before, e := WorldAt(w, run, k), run[k];
    if e.OnBook? { NoOtherMiss(before.book, e.event, id); }
    if e.UnpaidAndDisposed? && e.id == id && id in before.files {
      if DisposeMissed(before.files[id], e.limits, e.now).1.Success? {
        DispositionDisposes(before.files[id], e.limits, e.now);
      }
    }
  }

  lemma NoOtherMiss(b: Book, e: PromiseEvent, id: CaseId)
    requires BookInvariant(b) && Orderly(e) && !e.UnpaidRead?
    requires id in BookStep(b, e).promises && BookStep(b, e).promises[id].status == Missed
    ensures id in b.promises && b.promises[id].status == Missed
  {
    hide BookInvariant, SweepRows, QueueStep, ReviewWaits, RowAsks;
    if e.SweepPass? && Claimable(b, e.claimed, e.now) {
      PassClosedForm(b, e.claimed, e.now, e.seen);
      if id in e.claimed { assert id in DuePromises(b, e.now); }
    }
  }
}
