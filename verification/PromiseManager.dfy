/** The promise rows' writers and the promise sweep, as the imperative code they are. */
module PromiseManager {
  import opened Common
  import opened Transitions
  import opened JobQueue
  import opened Oldest
  import opened PromiseModel
  import opened PromiseRuns

  datatype IntentState = Attempted | Confirmed | Failed | Uncertain

  datatype ExecutionIntent = ExecutionIntent(action: CandidateAction, state: IntentState)

  datatype PromiseOutcome = PromiseOutcome(refused: bool, plan: Plan, escalationEnqueued: bool)

  predicate HasConfirmedFollowUp(intents: seq<ExecutionIntent>) {
    exists i :: 0 <= i < |intents| && intents[i] == ExecutionIntent(PromiseToPayFollowUp, Confirmed)
  }

  /** One merchant's promise rows and job table, as the current transaction sees and writes them. */
  class PromiseDesk {
    var promises: map<CaseId, Promise>
    var jobs: seq<Job>

    function Rows(): Book reads this { Book(promises, jobs) }

    constructor (b: Book)
      ensures Rows() == b
    {
      promises, jobs := b.promises, b.jobs;
    }

    /** The conditional update under every status change: it moves the row only out of an expected status. */
    method Update(id: CaseId, expected: set<PromiseStatus>, next: Promise) returns (moved: bool)
      modifies this`promises
      ensures moved <==> id in old(promises) && old(promises)[id].status in expected
      ensures Rows() == Resolve(old(Rows()), id, expected, next)
    {
      moved := id in promises && promises[id].status in expected;
      if moved { promises := promises[id := next]; }
    }

    /** Queues a job unless one is pending under its key. */
    method Queue(job: Job) returns (queued: bool)
      modifies this`jobs
      ensures jobs == Enqueue(old(jobs), job)
      ensures queued <==> !(job.dedupeKey.Some? && HasPending(old(jobs), job.dedupeKey.value))
    {
      queued := !(job.dedupeKey.Some? && HasPending(jobs, job.dedupeKey.value));
      if queued { jobs := jobs + [job.(state := Pending)]; }
    }

    /** Inserts a row unless the case has one; Raised when a CHECK refuses the row, which is checked first. */
    method InsertIfAbsent(id: CaseId, p: Promise) returns (r: Result<bool>)
      modifies this`promises
      ensures r == (if PromiseChecksHold(p) then Success(id !in old(promises)) else Raised)
      ensures promises == if r == Success(true) then old(promises)[id := p] else old(promises)
    {
      if !PromiseChecksHold(p) { return Raised; }
      if id in promises { return Success(false); }
      promises := promises[id := p];
      return Success(true);
    }

    /** What other transactions commit while this one stands between two of its statements. */
    method LetOthersRun(others: seq<PromiseEvent>)
      modifies this
      ensures Rows() == BookAt(old(Rows()), others, |others|)
    {
      for k := 0 to |others|
        invariant Rows() == BookAt(old(Rows()), others, k)
      {
        var next := BookStep(Rows(), others[k]);
        promises, jobs := next.promises, next.jobs;
      }
    }

    /**
      Records a promise and queues its consequence. `rivals` run between the count and the insert: whatever
      they do, the rows end as if this submission had run after them, and only a case without a promise is
      answered with anything but a refusal.
    */
    method RecordPromise(s: Submission, cfg: PromiseConfig, rivals: seq<PromiseEvent>)
      returns (r: Result<PromiseOutcome>)
      modifies this
      ensures var counted := s.id in old(promises) || EffectivePromiseLimit(cfg) == 0;
        var late := if counted then old(Rows()) else BookAt(old(Rows()), rivals, |rivals|);
        && Rows() == Submit(late, s, cfg)
        && (r.Raised? <==> !counted && !PromiseChecksHold(FreshFor(s, cfg)))
        && (r.Success? ==>
              && r.value.plan == PlanPromise(s.promised, s.submitted, s.windowEnd, cfg)
              && r.value.refused == (s.id in late.promises || cfg.maxPromisesPerCase <= 0)
              && r.value.escalationEnqueued == (!r.value.refused && r.value.plan.status == BeyondWindowEscalated))
        && (r.Success? && !r.value.refused ==>
              && s.id in promises && promises == late.promises[s.id := promises[s.id]]
              && promises[s.id] == Promise(s.promised, s.submitted, s.windowEnd, r.value.plan.followUpAt,
                                           r.value.plan.status, None, None, None, None)
              && (r.value.plan.status == Recorded ==> jobs == late.jobs)
              && (r.value.plan.status == BeyondWindowEscalated
                  && NonePending(late.jobs, "promise_escalation:" + s.id) ==>
                    jobs == late.jobs + [Job("promise_escalation", Some("promise_escalation:" + s.id), Some(s.id),
                                             Pending)]))
        && (r.Success? && r.value.refused ==> Rows() == late)
    {
      var plan := PlanPromise(s.promised, s.submitted, s.windowEnd, cfg);
      var limit := EffectivePromiseLimit(cfg);
      var held := if s.id in promises then 1 else 0;
      if held >= limit { return Success(PromiseOutcome(true, plan, false)); }
      LetOthersRun(rivals);
      var inserted := InsertIfAbsent(
        s.id, Promise(s.promised, s.submitted, plan.windowEnd, plan.followUpAt, plan.status, None, None, None, None));
      if inserted.Raised? { return Raised; }
      if !inserted.value { return Success(PromiseOutcome(true, plan, false)); }
      EscalationKeyText(jobs, s.id);
      if plan.status == BeyondWindowEscalated { var _ := Queue(EscalationJob(s.id)); }
      return Success(PromiseOutcome(false, plan, plan.status == BeyondWindowEscalated));
    }

    /** An authoritative read found the money: the interval, signed and in whole seconds, if a promise was kept. */
    method ResolveKept(id: CaseId, paidAt: Instant) returns (seconds: Option<int>)
      modifies this`promises
      ensures Rows() == Keep(old(Rows()), id, paidAt)
      ensures seconds.Some? <==>
        id in old(promises) && old(promises)[id].status in {Recorded, FollowUpScheduled, BeyondWindowEscalated}
      ensures seconds.Some? ==>
        && seconds.value == WholeSeconds(paidAt - old(promises)[id].promiseDate)
        && promises == old(promises)[id := old(promises)[id].(status := PromiseStatus.Kept, keptAt := Some(paidAt),
                                                              seconds := seconds)]
      ensures seconds.None? ==> promises == old(promises)
    {
      if id !in promises { return None; }
      var p := promises[id];
      var interval := paidAt - p.promiseDate;
      var whole := if interval >= 0 then interval / 1_000_000 else -(-interval / 1_000_000);
      var moved := Update(id, PENDING + {BeyondWindowEscalated},
                          p.(status := PromiseStatus.Kept, keptAt := Some(paidAt), seconds := Some(whole)));
      return if moved then Some(whole) else None;
    }

    /** Looks through a case's execution intents for a follow-up the provider confirmed. */
    method FollowUpWasConfirmed(intents: seq<ExecutionIntent>) returns (confirmed: bool)
      ensures confirmed <==> HasConfirmedFollowUp(intents)
    {
      for i := 0 to |intents|
        invariant forall j :: 0 <= j < i ==> intents[j] != ExecutionIntent(PromiseToPayFollowUp, Confirmed)
      {
        if intents[i].action == PromiseToPayFollowUp && intents[i].state == Confirmed { return true; }
      }
      return false;
    }

    /** An authoritative read found no money: the promise is missed, if its follow-up had been confirmed. */
    method ResolveMissed(id: CaseId, intents: seq<ExecutionIntent>, moment: Instant) returns (moved: bool)
      modifies this`promises
      ensures Rows() == Miss(old(Rows()), id, HasConfirmedFollowUp(intents), moment)
      ensures moved <==>
        && id in old(promises) && HasConfirmedFollowUp(intents)
        && old(promises)[id].status in {Recorded, FollowUpScheduled}
      ensures promises ==
        if moved then old(promises)[id := old(promises)[id].(status := Missed, missedAt := Some(moment))]
        else old(promises)
    {
      if id !in promises { return false; }
      var confirmed := FollowUpWasConfirmed(intents);
      if !confirmed { return false; }
      moved := Update(id, PENDING, promises[id].(status := Missed, missedAt := Some(moment)));
    }

    method MarkFollowUpScheduled(id: CaseId) returns (moved: bool)
      modifies this`promises
      ensures Rows() == MarkScheduled(old(Rows()), id)
      ensures moved <==> id in old(promises) && old(promises)[id].status == Recorded
      ensures promises ==
        if moved then old(promises)[id := old(promises)[id].(status := FollowUpScheduled)] else old(promises)
    {
      if id !in promises { return false; }
      moved := Update(id, {Recorded}, promises[id].(status := FollowUpScheduled));
    }

    /** Voids a pending promise of an ended case; a live case or a recovered one is the caller's mistake. */
    method VoidForTerminalState(id: CaseId, state: CaseState) returns (r: Result<bool>)
      modifies this`promises
      ensures r.Raised? <==> !IsTerminal(state) || state == Recovered
      ensures Rows() == VoidFor(old(Rows()), id, state)
      ensures r.Success? ==>
        (r.value <==> id in old(promises) && old(promises)[id].status in {Recorded, FollowUpScheduled})
      ensures promises ==
        if r == Success(true) then old(promises)[id := old(promises)[id].(status := Voided, voidedBy := Some(state))]
        else old(promises)
    {
      if !IsTerminal(state) || state == Recovered { return Raised; }
      if id !in promises { return Success(false); }
      var moved := Update(id, PENDING, promises[id].(status := Voided, voidedBy := Some(state)));
      return Success(moved);
    }

    /** Evaluates one claimed row against the state its case is read in, and says which branch it took. */
    method Evaluate(id: CaseId, now: Instant, seen: StatesRead) returns (branch: Branch, reviewed: bool)
      requires id in promises && promises[id].status in PENDING
      modifies this
      ensures Rows() == SweepRow(old(Rows()), id, now, seen)
      ensures branch == BranchFor(old(promises)[id], ReadOf(seen, id), now)
      ensures promises ==
        var p := old(promises)[id];
        if branch == VoidIt then old(promises)[id := p.(status := Voided, voidedBy := Some(seen[id]))]
        else if branch == ScheduleIt then old(promises)[id := p.(status := FollowUpScheduled)]
        else old(promises)
      ensures branch ==
        if id !in seen then CaseGone
        else if seen[id] == Recovered then LeftRecovered
        else if IsTerminal(seen[id]) then VoidIt
        else if old(promises)[id].windowEnd <= now then LeftWindowClosed
        else if old(promises)[id].status == Recorded then ScheduleIt else AlreadyScheduled
      ensures reviewed <==>
        && id in seen && seen[id] in {PolicyCheck, WaitingForOutcome} && now < old(promises)[id].windowEnd
        && NonePending(old(jobs), "case_review:" + id)
      ensures jobs == old(jobs)
        + if reviewed then [Job("case_review", Some("case_review:" + id), Some(id), Pending)] else []
    {
      var row := promises[id];
      ghost var before := promises;
      assert before[id := row] == before;
      ReviewKeyText(jobs, id);
      EnqueueingReview(jobs, id);
      reviewed := false;
      if id !in seen { return CaseGone, false; }
      var state := seen[id];
      if IsTerminal(state) {
        if state == Recovered { return LeftRecovered, false; }
        var voided := VoidForTerminalState(id, state);
        assert voided == Success(true);
        return VoidIt, false;
      }
      if row.windowEnd <= now { return LeftWindowClosed, false; }
      branch := AlreadyScheduled;
      if row.status == Recorded {
        var moved := Update(id, {Recorded}, row.(status := FollowUpScheduled));
        if moved { branch := ScheduleIt; }
      }
      if state == PolicyCheck || state == WaitingForOutcome { reviewed := Queue(ReviewJob(id)); }
    }

    /**
      Evaluates every promise whose follow-up instant has been reached: the oldest due rows that no other pass
      has locked, up to the limit, each exactly once and by its own branch.
    */
    method SweepDuePromises(now: Instant, limit: int, locked: set<CaseId>, seen: StatesRead)
      returns (r: Result<SweepTally>, ghost claimed: seq<CaseId>)
      modifies this
      ensures r.Raised? <==> limit <= 0
      ensures r.Raised? ==> Rows() == old(Rows())
      ensures r.Success? ==>
        && OldestFirst(claimed, DuePromises(old(Rows()), now) - locked, FollowUps(old(Rows())), limit)
        && LongestWaiting(old(Rows()), now, locked, claimed, limit)
        && Swept(old(Rows()), Rows(), claimed, now, seen, r.value)
        && PassOnColumns(old(Rows()), Rows(), claimed, now, seen)
        && TallyOnColumns(old(Rows()), claimed, now, seen, r.value)
        && r.value.reviews == |jobs| - |old(jobs)|
    {
      hide OldestFirst, SweepRow, FollowUps, BranchFor, Swept, DuePromises, BranchResult, AsksForReview, NonePending;
      hide LongestWaiting, PassOnColumns, TallyOnColumns;
      claimed := [];
      if limit <= 0 { return Raised, claimed; }
      ghost var before := Rows();
      var rows := ClaimDue(now, limit, locked);
      claimed := rows;
      var scheduled, voided, skipped, reviews := 0, 0, 0, 0;
      SweptNone(before, now, seen);
      for i := 0 to |rows|
        invariant Swept(before, Rows(), rows[..i], now, seen, SweepTally(i, scheduled, voided, skipped, reviews))
      {
        SweptNext(before, Rows(), rows[..i], now, seen, SweepTally(i, scheduled, voided, skipped, reviews), rows[i]);
        assert rows[..i + 1] == rows[..i] + [rows[i]];
        var branch, reviewed := Evaluate(rows[i], now, seen);
        if branch == ScheduleIt { scheduled := scheduled + 1; }
        if branch == VoidIt { voided := voided + 1; }
        if branch in {LeftRecovered, LeftWindowClosed} { skipped := skipped + 1; }
        if reviewed { reviews := reviews + 1; }
      }
      assert rows[..|rows|] == rows;
      var tally := SweepTally(|rows|, scheduled, voided, skipped, reviews);
      SweptMeaning(before, Rows(), rows, now, seen, tally);
      r := Success(tally);
    }

    /** Claims the oldest due rows that nobody else has locked. */
    method ClaimDue(now: Instant, limit: nat, locked: set<CaseId>) returns (claimed: seq<CaseId>)
      ensures OldestFirst(claimed, DuePromises(Rows(), now) - locked, FollowUps(Rows()), limit)
      ensures LongestWaiting(Rows(), now, locked, claimed, limit) && Claimable(Rows(), claimed, now)
      ensures Distinct(claimed) && forall id :: id in claimed ==> id in promises && promises[id].status in PENDING
    {
      claimed := SelectOldest(DuePromises(Rows(), now) - locked, FollowUps(Rows()), limit);
      assert forall id :: id in claimed ==> id in DuePromises(Rows(), now);
      ClaimMeaning(Rows(), now, locked, claimed, limit);
    }
  }
}
