/** What every run keeps true of every promise, and how often a promise can move. */
module PromiseLifecycle {
  import opened Common
  import opened Transitions
  import opened JobQueue
  import opened PromiseModel
  import opened PromiseRuns

  // ---- One row ----

  /** The columns of a promise agree with each other, and with the schema. */
  predicate PromiseAgrees(p: Promise) {
    && PromiseChecksHold(p)
    && (p.status in PENDING ==> p.followUpAt.Some?)
    && (p.followUpAt.None? ==> p.status in {BeyondWindowEscalated, PromiseStatus.Kept})
    && (p.missedAt.Some? <==> p.status == Missed)
    && (p.voidedBy.Some? <==> p.status == Voided)
    && (p.voidedBy.Some? ==> Voids(p.voidedBy.value))
    && (p.seconds.Some? <==> p.status == PromiseStatus.Kept)
    && (p.status == PromiseStatus.Kept ==> p.seconds == Some(WholeSeconds(p.keptAt.value - p.promiseDate)))
  }

  function StatusRank(s: PromiseStatus): nat {
    match s
    case Recorded => 0
    case FollowUpScheduled => 1
    case BeyondWindowEscalated => 1
    case _ => 2
  }

  /** One legal move: the plan never changes, the status only climbs, an escalated promise can only be kept. */
  predicate Moves(p: Promise, q: Promise) {
    && q.promiseDate == p.promiseDate && q.recordedAt == p.recordedAt
    && q.windowEnd == p.windowEnd && q.followUpAt == p.followUpAt
    && (q == p || StatusRank(p.status) < StatusRank(q.status))
    && (p.status == BeyondWindowEscalated ==> q == p || q.status == PromiseStatus.Kept)
  }

  /** What the sweep finds due may be chosen; and once it may, it may until the promise is resolved. */
  lemma ReachedStaysReached(p: Promise, q: Promise, now: Instant, later: Instant)
    requires PromiseAgrees(p) && Moves(p, q) && now <= later
    ensures Due(p, now) ==> FollowUpReached(p, now)
    ensures p.status == Recorded ==> (FollowUpReached(p, now) <==> Due(p, now))
    ensures FollowUpReached(p, now) && q.status in PENDING ==> FollowUpReached(q, later)
    ensures FollowUpReached(p, now) ==> p.followUpAt.Some?
  {}

  // ---- The escalation jobs ----

  predicate EscalationOf(j: Job, id: CaseId) { j.kind == PROMISE_ESCALATION_KIND && j.caseId == Some(id) }

  function EscalationsFor(jobs: seq<Job>, id: CaseId): nat {
    if jobs == [] then 0
    else EscalationsFor(jobs[..|jobs| - 1], id) + if EscalationOf(jobs[|jobs| - 1], id) then 1 else 0
  }

  /** Every escalation job carries its case's own key. */
  predicate EscalationsKeyed(jobs: seq<Job>) {
    forall j :: 0 <= j < |jobs| && IsEscalation(jobs[j]) ==>
      jobs[j].caseId.Some? && EscalationOf(jobs[j], jobs[j].caseId.value)
      && jobs[j].dedupeKey == Some(CaseKey(PROMISE_ESCALATION_KIND, jobs[j].caseId.value))
  }

  /** Escalation jobs ever queued for a case: one if its promise could not be followed up, otherwise none. */
  function EscalationsOwed(b: Book, id: CaseId): nat {
    if id in b.promises && b.promises[id].followUpAt.None? then 1 else 0
  }

  ghost predicate BookInvariant(b: Book) {
    && (forall id :: id in b.promises ==> PromiseAgrees(b.promises[id]))
    && OnePendingPerKey(b.jobs) && EscalationsKeyed(b.jobs)
    && (forall id :: EscalationsFor(b.jobs, id) == EscalationsOwed(b, id))
  }

  lemma {:induction false} CountSameShape(jobs: seq<Job>, after: seq<Job>, id: CaseId)
    requires |after| == |jobs|
    requires forall i :: 0 <= i < |jobs| ==> after[i].kind == jobs[i].kind && after[i].caseId == jobs[i].caseId
    ensures EscalationsFor(after, id) == EscalationsFor(jobs, id)
  {
    if jobs != [] { CountSameShape(jobs[..|jobs| - 1], after[..|jobs| - 1], id); }
  }

  lemma {:induction false} CountFinds(jobs: seq<Job>, id: CaseId, i: nat)
    requires i < |jobs| && EscalationOf(jobs[i], id)
    ensures EscalationsFor(jobs, id) > 0
  {
    if i < |jobs| - 1 { CountFinds(jobs[..|jobs| - 1], id, i); }
  }

  lemma CountAppend(jobs: seq<Job>, job: Job, id: CaseId)
    ensures EscalationsFor(jobs + [job], id) == EscalationsFor(jobs, id) + if EscalationOf(job, id) then 1 else 0
  {
    assert (jobs + [job])[..|jobs|] == jobs;
  }

  /** Work on the queue by anybody else neither adds nor loses an escalation. */
  lemma OtherWorkKeepsCounts(jobs: seq<Job>, e: QueueEvent, id: CaseId)
    requires EscalationsKeyed(jobs) && Orderly(QueueWork(e))
    ensures EscalationsKeyed(QueueStep(jobs, e))
    ensures EscalationsFor(QueueStep(jobs, e), id) == EscalationsFor(jobs, id)
  {
    match e
    case Enqueued(job) =>
      CountAppend(jobs, job.(state := Pending), id);
    case _ =>
      CountSameShape(jobs, QueueStep(jobs, e), id);
  }

  /** An escalation is never deduplicated away: none can be pending for a case that had no promise. */
  lemma EscalationIsQueued(jobs: seq<Job>, id: CaseId)
    requires EscalationsKeyed(jobs) && EscalationsFor(jobs, id) == 0
    ensures Enqueue(jobs, EscalationJob(id)) == jobs + [EscalationJob(id)]
    ensures EscalationsKeyed(Enqueue(jobs, EscalationJob(id)))
  {
    var key := CaseKey(PROMISE_ESCALATION_KIND, id);
    if HasPending(jobs, key) {
      var j :| j in jobs && PendingWith(j, key);
      var i :| 0 <= i < |jobs| && jobs[i] == j;
      assert key[..|PROMISE_ESCALATION_KIND + ":"|] == PROMISE_ESCALATION_KIND + ":";
      assert IsEscalation(j);
      var other := CaseKey(PROMISE_ESCALATION_KIND, j.caseId.value);
      assert other[|PROMISE_ESCALATION_KIND| + 1..] == j.caseId.value && key[|PROMISE_ESCALATION_KIND| + 1..] == id;
      CountFinds(jobs, id, i);
    }
  }

  lemma ReviewIsNoEscalation(jobs: seq<Job>, id: CaseId, other: CaseId)
    requires EscalationsKeyed(jobs)
    ensures !IsEscalation(ReviewJob(id))
    ensures EscalationsKeyed(Enqueue(jobs, ReviewJob(id)))
    ensures EscalationsFor(Enqueue(jobs, ReviewJob(id)), other) == EscalationsFor(jobs, other)
  {
    var key := CaseKey(CASE_REVIEW_KIND, id);
    assert key[0] == 'c' && (PROMISE_ESCALATION_KIND + ":")[0] == 'p';
    OtherWorkKeepsCounts(jobs, Enqueued(ReviewJob(id)), other);
  }

  // ---- Each kind of step ----

  /** Rows stay, each makes at most one legal move, and the rows keep agreeing. */
  ghost predicate RowsMove(b: Book, after: Book) {
    && b.promises.Keys <= after.promises.Keys
    && (forall id :: id in b.promises ==> Moves(b.promises[id], after.promises[id]))
  }

  lemma BranchKeepsRow(p: Promise, state: Option<CaseState>, now: Instant)
    requires PromiseAgrees(p) && p.status in PENDING
    ensures var q := BranchResult(p, BranchFor(p, state, now), state);
      PromiseAgrees(q) && Moves(p, q)
  {}

  lemma SweepRowKeeps(b: Book, id: CaseId, now: Instant, seen: StatesRead)
    requires BookInvariant(b) && id in b.promises && b.promises[id].status in PENDING
    ensures BookInvariant(SweepRow(b, id, now, seen))
  {
    hide PromiseAgrees, Moves, BranchFor, BranchResult, AsksForReview, EscalationsKeyed, Enqueue;
    hide OnePendingPerKey, ReviewJob, EscalationsFor, QueueStep;
    var state := ReadOf(seen, id);
    BranchKeepsRow(b.promises[id], state, now);
    var after := SweepRow(b, id, now, seen);
    if AsksForReview(BranchFor(b.promises[id], state, now), state) {
      EnqueueKeepsIndex(b.jobs, ReviewJob(id));
      ReviewIsNoEscalation(b.jobs, id, id);
      forall other ensures EscalationsFor(after.jobs, other) == EscalationsFor(b.jobs, other) {
        ReviewIsNoEscalation(b.jobs, id, other);
      }
    }
    assert Moves(b.promises[id], after.promises[id]);
    SameFollowUp(b.promises[id], after.promises[id]);
  }

  lemma SameFollowUp(p: Promise, q: Promise)
    requires Moves(p, q)
    ensures q.followUpAt == p.followUpAt
  {}

  lemma EnqueueKeepsIndex(jobs: seq<Job>, job: Job)
    requires OnePendingPerKey(jobs)
    ensures OnePendingPerKey(Enqueue(jobs, job))
  {
    QueueStepKeepsIndex(jobs, Enqueued(job));
  }

  lemma {:induction false} SweepKeeps(b: Book, claimed: seq<CaseId>, now: Instant, seen: StatesRead)
    requires BookInvariant(b) && Claimable(b, claimed, now)
    ensures BookInvariant(SweepRows(b, claimed, now, seen))
  {
    hide BookInvariant, SweepRow, RowResult, RowAsks;
    if claimed != [] {
      var n := |claimed| - 1;
      var shorter, id := claimed[..n], claimed[n];
      SweepKeeps(b, shorter, now, seen);
      PassClosedForm(b, shorter, now, seen);
      assert id in claimed && id !in shorter;
      SweepRowKeeps(SweepRows(b, shorter, now, seen), id, now, seen);
    }
  }

  lemma SweepMoves(b: Book, claimed: seq<CaseId>, now: Instant, seen: StatesRead)
    requires BookInvariant(b) && Claimable(b, claimed, now)
    ensures RowsMove(b, SweepRows(b, claimed, now, seen))
  {
    hide Moves, PromiseAgrees, SweepRows, BranchFor, BranchResult, OnePendingPerKey, EscalationsFor, EscalationsKeyed;
    PassClosedForm(b, claimed, now, seen);
    var after := SweepRows(b, claimed, now, seen);
    forall id | id in b.promises ensures Moves(b.promises[id], after.promises[id]) {
      if id in claimed { BranchKeepsRow(b.promises[id], ReadOf(seen, id), now); }
      else { MovesNowhere(b.promises[id]); }
    }
  }

  lemma MovesNowhere(p: Promise)
    ensures Moves(p, p)
  {}

  lemma SubmitKeeps(b: Book, s: Submission, cfg: PromiseConfig)
    requires BookInvariant(b)
    ensures BookInvariant(Submit(b, s, cfg)) && RowsMove(b, Submit(b, s, cfg))
  {
    hide EscalationsKeyed, OnePendingPerKey, Enqueue, EscalationsFor;
    var after, p := Submit(b, s, cfg), FreshFor(s, cfg);
    if after != b {
      assert EscalationsFor(b.jobs, s.id) == 0;
      if p.status == BeyondWindowEscalated {
        EscalationIsQueued(b.jobs, s.id);
        EnqueueKeepsIndex(b.jobs, EscalationJob(s.id));
        forall id ensures EscalationsFor(after.jobs, id) == EscalationsOwed(after, id) {
          CountAppend(b.jobs, EscalationJob(s.id), id);
        }
      }
    }
  }

  /** The conditional updates: each leaves its row in agreement, and moves it legally or not at all. */
  lemma ResolveKeeps(b: Book, id: CaseId, expected: set<PromiseStatus>, next: Promise)
    requires BookInvariant(b)
    requires id in b.promises && b.promises[id].status in expected ==>
      PromiseAgrees(next) && Moves(b.promises[id], next)
    ensures BookInvariant(Resolve(b, id, expected, next)) && RowsMove(b, Resolve(b, id, expected, next))
  {
    hide PromiseAgrees, EscalationsKeyed, OnePendingPerKey, EscalationsFor;
  }

  lemma OtherWorkKeeps(b: Book, event: QueueEvent)
    requires BookInvariant(b) && Orderly(QueueWork(event))
    ensures BookInvariant(b.(jobs := QueueStep(b.jobs, event)))
  {
    hide EscalationsKeyed, OnePendingPerKey, EscalationsFor, QueueStep, PromiseAgrees;
    QueueStepKeepsIndex(b.jobs, event);
    OtherWorkKeepsCounts(b.jobs, event, "");
    forall id ensures EscalationsFor(QueueStep(b.jobs, event), id) == EscalationsFor(b.jobs, id) {
      OtherWorkKeepsCounts(b.jobs, event, id);
    }
  }

  /** A read, a confirmation or an ending, whichever it is, moves the row legally or not at all. */
  lemma UpdatesKeep(b: Book, e: PromiseEvent)
    requires BookInvariant(b) && (e.PaidRead? || e.UnpaidRead? || e.FollowUpConfirmed? || e.CaseEnded?)
    ensures BookInvariant(BookStep(b, e)) && RowsMove(b, BookStep(b, e))
  {
    hide BookInvariant, Resolve, RowsMove;
    BookStays(b);
    if e.id in b.promises {
      AgreesInBook(b, e.id);
      var p := b.promises[e.id];
      match e
      case PaidRead(id, paidAt) => ResolveKeeps(b, id, PENDING + {BeyondWindowEscalated}, KeptAs(p, paidAt));
      case UnpaidRead(id, confirmed, moment) => ResolveKeeps(b, id, PENDING, MissedAs(p, moment));
      case FollowUpConfirmed(id) => ResolveKeeps(b, id, {Recorded}, ScheduledAs(p));
      case CaseEnded(id, state) => if Voids(state) { ResolveKeeps(b, id, PENDING, VoidedAs(p, state)); }
      case _ =>
    }
  }

  lemma AgreesInBook(b: Book, id: CaseId)
    requires BookInvariant(b) && id in b.promises
    ensures PromiseAgrees(b.promises[id])
  {}

  lemma BookStays(b: Book)
    ensures RowsMove(b, b)
  {}

  /** Every step by anyone keeps every promise in agreement, and moves it legally or not at all. */
  lemma BookStepKeeps(b: Book, e: PromiseEvent)
    requires BookInvariant(b) && Orderly(e)
    ensures BookInvariant(BookStep(b, e)) && RowsMove(b, BookStep(b, e))
  {
    hide Submit, SweepRows, BookInvariant, QueueStep, Keep, Miss, MarkScheduled, VoidFor, Moves, Orderly;
    BookStays(b);
    match e
    case Submitted(s, cfg) => SubmitKeeps(b, s, cfg);
    case SweepPass(claimed, now, seen) =>
      if Claimable(b, claimed, now) { SweepKeeps(b, claimed, now, seen); SweepMoves(b, claimed, now, seen); }
    case QueueWork(event) => OtherWorkKeeps(b, event);
    case _ => UpdatesKeep(b, e);
  }

  // ---- Whole runs ----

  predicate OrderlyRun(run: seq<PromiseEvent>) { forall e :: e in run ==> Orderly(e) }

  /** In every reachable state every row agrees, and each escalation owed was queued exactly once. */
  lemma {:induction false} BookRunKeeps(b: Book, run: seq<PromiseEvent>, k: nat)
    requires BookInvariant(b) && OrderlyRun(run) && k <= |run|
    ensures BookInvariant(BookAt(b, run, k))
  {
    hide BookInvariant, BookStep, RowsMove;
    if k > 0 {
      BookRunKeeps(b, run, k - 1);
      BookStepKeeps(BookAt(b, run, k - 1), run[k - 1]);
    }
  }

  /** Whether the k-th event of a run moved the status of a case's promise. */
  predicate MovedBy(b: Book, run: seq<PromiseEvent>, id: CaseId, k: nat)
    requires k < |run|
  {
    var before, after := BookAt(b, run, k), BookAt(b, run, k + 1);
    id in before.promises && id in after.promises && before.promises[id].status != after.promises[id].status
  }

  function MoveCount(b: Book, run: seq<PromiseEvent>, id: CaseId, k: nat): nat
    requires k <= |run|
  {
    if k == 0 then 0 else MoveCount(b, run, id, k - 1) + if MovedBy(b, run, id, k - 1) then 1 else 0
  }

  lemma {:induction false} MovesFromTo(b: Book, run: seq<PromiseEvent>, id: CaseId, i: nat, j: nat)
    requires BookInvariant(b) && OrderlyRun(run) && i <= j <= |run| && id in BookAt(b, run, i).promises
    ensures id in BookAt(b, run, j).promises
    ensures Moves(BookAt(b, run, i).promises[id], BookAt(b, run, j).promises[id])
    ensures StatusRank(BookAt(b, run, i).promises[id].status) + MoveCount(b, run, id, j)
         <= StatusRank(BookAt(b, run, j).promises[id].status) + MoveCount(b, run, id, i)
  {
    hide BookInvariant, BookStep;
    if i < j {
      MovesFromTo(b, run, id, i, j - 1);
      BookRunKeeps(b, run, j - 1);
      BookStepKeeps(BookAt(b, run, j - 1), run[j - 1]);
    }
  }

  /** Status moves so far are paid for by the rank reached. */
  lemma {:induction false} MovesWithinRank(b: Book, run: seq<PromiseEvent>, id: CaseId, k: nat)
    requires BookInvariant(b) && OrderlyRun(run) && k <= |run| && id !in b.promises
    ensures MoveCount(b, run, id, k) <=
      if id in BookAt(b, run, k).promises then StatusRank(BookAt(b, run, k).promises[id].status) else 0
  {
    hide BookInvariant, BookStep;
    if k > 0 {
      BookRunKeeps(b, run, k - 1);
      BookStepKeeps(BookAt(b, run, k - 1), run[k - 1]);
      MovesWithinRank(b, run, id, k - 1);
    }
  }

  const EMPTY_BOOK := Book(map[], [])

  lemma EmptyBookAgrees()
    ensures BookInvariant(EMPTY_BOOK)
  {}

  /** Whatever runs, in whatever order, a promise changes status at most twice. */
  lemma AtMostTwoMoves(run: seq<PromiseEvent>, id: CaseId)
    requires OrderlyRun(run)
    ensures MoveCount(EMPTY_BOOK, run, id, |run|) <= 2
  {
    EmptyBookAgrees();
    MovesWithinRank(EMPTY_BOOK, run, id, |run|);
  }

  /** Kept, missed and voided promises are never touched again; an escalated one can only become kept. */
  lemma FinalIsFinal(run: seq<PromiseEvent>, id: CaseId, i: nat, j: nat)
    requires OrderlyRun(run) && i <= j <= |run| && id in BookAt(EMPTY_BOOK, run, i).promises
    ensures id in BookAt(EMPTY_BOOK, run, j).promises
    ensures var p, q := BookAt(EMPTY_BOOK, run, i).promises[id], BookAt(EMPTY_BOOK, run, j).promises[id];
      && (p.status in {PromiseStatus.Kept, Missed, Voided} ==> q == p)
      && (p.status == BeyondWindowEscalated ==> q == p || q.status == PromiseStatus.Kept)
      && q.followUpAt == p.followUpAt && q.windowEnd == p.windowEnd && q.promiseDate == p.promiseDate
  {
    hide BookInvariant, BookStep;
    EmptyBookAgrees();
    MovesFromTo(EMPTY_BOOK, run, id, i, j);
  }

  /** Any stored promise, at any time: what its columns say agrees, and its one escalation exists iff it is owed. */
  lemma EveryPromiseAgrees(run: seq<PromiseEvent>, k: nat, id: CaseId)
    requires OrderlyRun(run) && k <= |run|
    ensures var b := BookAt(EMPTY_BOOK, run, k);
      && (id in b.promises ==>
            var p := b.promises[id];
            && PromiseChecksHold(p)
            && (p.keptAt.Some? <==> p.status == PromiseStatus.Kept)
            && (p.keptAt.Some? ==> p.seconds == Some(WholeSeconds(p.keptAt.value - p.promiseDate)))
            && (p.voidedBy.Some? ==> IsTerminal(p.voidedBy.value) && p.voidedBy.value != Recovered)
            && (p.status == Voided <==> p.voidedBy.Some?)
            && (p.status == BeyondWindowEscalated ==> p.followUpAt.None?))
      && EscalationsFor(b.jobs, id) == (if id in b.promises && b.promises[id].followUpAt.None? then 1 else 0)
      && OnePendingPerKey(b.jobs)
  {
    hide BookStep;
    EmptyBookAgrees();
    BookRunKeeps(EMPTY_BOOK, run, k);
  }
}
