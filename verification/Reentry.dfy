/** The three callers that take a case back to deciding, and the cap they keep between them. */
module Reentry {
  import opened Common
  import opened Transitions
  import opened CaseModel
  import opened CaseInvariants
  import opened Bounds
  import opened CaseRuns
  import opened JobQueue
  import opened TenantModel

  // ---- The review handler ----

  const REVIEW_ACTOR := "review_engine"

  /** Whether a review may act on a case in this state; one waiting for its outcome needs a promise come due. */
  predicate ReviewAdmits(state: CaseState, promiseDue: bool) {
    if state == WaitingForOutcome then promiseDue else state == PolicyCheck
  }

  /**
    The attempt a review makes of the row it read under the lock, at the version it read: the end of the case at
    the cap, otherwise another decision if the estimators recommended anything, otherwise nothing.
  */
  function ReviewMove(
    row: CaseRow, promiseDue: bool, cap: int, trigger: string, recommended: Option<CandidateAction>): Option<Attempt>
  {
    if !ReviewAdmits(row.state, promiseDue) then None
    else if row.cycles >= cap then
      Some(Attempt(row.version, Stopped, "decision cycle limit reached at review", REVIEW_ACTOR, None,
                   Some(DecisionCycleLimitReached), false, Nothing, ["RECOVERY_OBSERVATION_RECORDED", "CASE_REVIEWED"]))
    else if recommended.None? then None
    else
      Some(Attempt(row.version, DecisionPending, "review triggered by " + trigger, REVIEW_ACTOR, recommended,
                   None, false, Nothing, ["CASE_REVIEWED"]))
  }

  /** Whether a review runs the estimators, which file their records in the transaction that reads the case. */
  predicate Estimates(row: CaseRow, promiseDue: bool, cap: int) {
    ReviewAdmits(row.state, promiseDue) && row.cycles < cap
  }

  // ---- The settlement of a refused resend ----

  const RESEND_ACTOR := "execution_engine"

  /** What a definitively refused resend asks of the locked case; None leaves it to the window sweep. */
  function ResendMove(row: CaseRow, bound: Option<Bound>, action: CandidateAction, code: string): Option<Attempt> {
    if bound == Some(WindowElapsed) then None
    else
      Some(Attempt(
        row.version,
        if bound.None? then DecisionPending else Stopped,
        if bound.None? then "resend refused by provider (" + code + "); re-deciding"
        else "resend refused by provider (" + code + "); " + BoundName(bound.value),
        RESEND_ACTOR, Some(action),
        if bound.None? then None
        else if bound == Some(DecisionCycleLimit) then Some(DecisionCycleLimitReached)
        else Some(MaxAttemptsReached),
        false, Nothing, []))
  }

  /**
    What a refused resend does to its case, column by column: nothing once the window is over; another decision while
    a cycle and a message are left; otherwise the end of the case for the limit it has used up.
  */
  lemma ResendMeaning(f: CaseFile, limits: Limits, action: CandidateAction, code: string, now: Instant)
    requires Invariant(f)
    ensures var move := ResendMove(f.row, BoundReached(f.row, limits, now), action, code);
      && (move.None? <==> now >= f.row.windowEndAt)
      && (move.Some? && Transact(f, move.value, now).1.Applied? ==>
            var g := Transact(f, move.value, now).0;
            && |g.log| == |f.log| + 1 && g.log[|f.log|].entry.actor == "execution_engine"
            && g.log[|f.log|].entry.action == Some(action)
            && if f.row.cycles < limits.maxRecoveryAttempts && f.row.messages < limits.maxCustomerMessages
               then g.row.state == DecisionPending && g.row.cycles == f.row.cycles + 1 && g.tokens == f.tokens
                    && g.log[|f.log|].entry.reason == "resend refused by provider (" + code + "); re-deciding"
               else g.row.state == Stopped && g.row.cycles == f.row.cycles && NoneLive(g.tokens)
                    && g.row.terminalReason == Some(if f.row.cycles >= limits.maxRecoveryAttempts
                                                    then DecisionCycleLimitReached else MaxAttemptsReached))
      && (move.Some? && !Transact(f, move.value, now).1.Applied? ==>
            var verdict := Transact(f, move.value, now).1;
            !verdict.Rejected? || verdict.rejection.refusal == IllegalEdge)
  {
    hide Invariant, Transact, NoneLive, HoldsUnexpiredToken, LiveCount, RuleFor;
    AttemptsFree(f, limits, now);
    var bound := BoundReached(f.row, limits, now);
    var move := ResendMove(f.row, bound, action, code);
    if move.Some? {
      if Transact(f, move.value, now).1.Applied? {
        TransitionEffects(f, move.value, now);
        StepFacts(f, Moment(now, Transition(move.value)));
        if move.value.target == DecisionPending { DecisionKeepsTokens(f, move.value, now); }
      }
      NoConflict(f, move.value, now);
    }
  }

  lemma DecisionKeepsTokens(f: CaseFile, a: Attempt, now: Instant)
    requires a.target == DecisionPending && a.onSuccess.Nothing? && a.alongside == []
    ensures Transact(f, a, now).1.Applied? ==> Transact(f, a, now).0.tokens == f.tokens
  {
    hide RuleFor, Storable;
  }

  lemma NoConflict(f: CaseFile, a: Attempt, now: Instant)
    requires a.expectedVersion == f.row.version && a.target != Recovered
    ensures Transact(f, a, now).1.Rejected? ==> Transact(f, a, now).1.rejection.refusal == IllegalEdge
  {
    hide AfterSuccess, Storable, Moved;
  }

  // ---- Runs whose re-entries come from these callers ----

  /** A review acting now on a row it read at an earlier point of the run. */
  ghost predicate FromReview(f: CaseFile, run: seq<Moment>, limits: Limits, k: nat)
    requires k < |run| && run[k].event.Transition?
  {
    exists j, due, trigger, recommended :: 0 <= j <= k &&
      ReviewMove(At(f, run, j).row, due, limits.maxRecoveryAttempts, trigger, recommended) == Some(run[k].event.attempt)
  }

  /** A disposition decided and applied on one locked row. */
  ghost predicate FromLockedRow(f: CaseFile, run: seq<Moment>, limits: Limits, k: nat)
    requires k < |run| && run[k].event.Transition?
  {
    var row := At(f, run, k).row;
    var bound := BoundReached(row, limits, run[k].now);
    || run[k].event.attempt == MissedMove(row, bound)
    || exists action, code :: ResendMove(row, bound, action, code) == Some(run[k].event.attempt)
  }

  ghost predicate FromCallers(f: CaseFile, run: seq<Moment>, limits: Limits) {
    forall k :: 0 <= k < |run| && Reenters(f, run, k) ==>
      FromReview(f, run, limits, k) || FromLockedRow(f, run, limits, k)
  }

  /** Every re-entry these callers ask for was admitted under the cap, at the version it was admitted on. */
  lemma CallersAreGuarded(f: CaseFile, run: seq<Moment>, limits: Limits)
    requires FromCallers(f, run, limits)
    ensures Guarded(f, run, limits)
  {
    hide At, RuleFor;
    forall k | 0 <= k < |run| && Reenters(f, run, k) ensures Admitted(f, run, limits, k) {
      if FromReview(f, run, limits, k) {
        var j, due, trigger, recommended :| 0 <= j <= k &&
          ReviewMove(At(f, run, j).row, due, limits.maxRecoveryAttempts, trigger, recommended)
            == Some(run[k].event.attempt);
        assert ReadUnderCap(At(f, run, j).row, run[k].event.attempt.expectedVersion, limits);
      }
    }
  }

  /** Whatever else runs beside them, these callers never take a case past a cap of at least one. */
  lemma CallersKeepTheCap(windowEndAt: Instant, start: Instant, run: seq<Moment>, limits: Limits)
    requires WellFormedRun(run) && FromCallers(Opened(windowEndAt, start), run, limits)
    requires limits.maxRecoveryAttempts >= 1
    ensures At(Opened(windowEndAt, start), run, |run|).row.cycles <= limits.maxRecoveryAttempts
  {
    hide Invariant, Step, Guarded, FromCallers;
    OpenedInvariant(windowEndAt, start);
    CallersAreGuarded(Opened(windowEndAt, start), run, limits);
    CapHolds(Opened(windowEndAt, start), run, limits, |run|);
  }

  // ---- The same review, acting in a tenant's history ----

  lemma {:induction false} MomentsConcat(h: seq<Commit>, more: seq<Commit>, id: CaseId)
    ensures MomentsOf(h + more, id) == MomentsOf(h, id) + MomentsOf(more, id)
  {
    if more == [] {
      assert h + more == h;
    } else {
      var n := |more| - 1;
      MomentsConcat(h, more[..n], id);
      assert (h + more)[..|h + more| - 1] == h + more[..n];
    }
  }

  lemma CaseAfterPrefix(t: Tenant, h: seq<Commit>, j: nat, id: CaseId)
    requires id in t.files && WellFormedHistory(h) && j <= |h|
    ensures |MomentsOf(h[..j], id)| <= |MomentsOf(h, id)| && id in RunAll(t, h[..j]).files
    ensures RunAll(t, h[..j]).files[id] == At(t.files[id], MomentsOf(h, id), |MomentsOf(h[..j], id)|)
  {
    hide Step;
    assert h == h[..j] + h[j..];
    MomentsConcat(h[..j], h[j..], id);
    CaseGoesThroughItsRun(t, h[..j], id);
    AtPrefix(t.files[id], MomentsOf(h[..j], id), MomentsOf(h[j..], id), |MomentsOf(h[..j], id)|);
  }

  /** What a review read at one point of a history and attempted at a later one is a review in its case's own run. */
  lemma ReviewInHistory(
    t: Tenant, h: seq<Commit>, j: nat, p: nat, promiseDue: bool, limits: Limits, trigger: string,
    recommended: Option<CandidateAction>)
    requires WellFormedHistory(h) && j <= p < |h| && h[p].OnCase? && h[p].id in t.files && h[p].moment.event.Transition?
    requires h[p].id in RunAll(t, h[..j]).files
    requires ReviewMove(RunAll(t, h[..j]).files[h[p].id].row, promiseDue, limits.maxRecoveryAttempts, trigger,
                        recommended)
          == Some(h[p].moment.event.attempt)
    ensures var run, k := MomentsOf(h, h[p].id), |MomentsOf(h[..p], h[p].id)|;
      k < |run| && run[k] == h[p].moment && FromReview(t.files[h[p].id], run, limits, k)
  {
    hide ReviewMove, RunAll, At;
    var id := h[p].id;
    CaseAfterPrefix(t, h, j, id);
    assert h == (h[..p] + [h[p]]) + h[p + 1..];
    assert (h[..p] + [h[p]])[..p] == h[..p];
    MomentsConcat(h[..p] + [h[p]], h[p + 1..], id);
    assert h[..p] == h[..j] + h[j..p];
    MomentsConcat(h[..j], h[j..p], id);
  }

  /**
    Right after the commit at p its case, unmoved since the read, is stopped at the cap for having reached it, with no
    working link, or a cycle on within the cap; and its review is on record.
  */
  ghost predicate ReviewTookEffect(
    t: Tenant, h: seq<Commit>, p: nat, cap: int, trigger: string, recommended: Option<CandidateAction>)
    requires p < |h|
  {
    h[p].OnCase? && h[p].id in t.files &&
    var id, after := h[p].id, RunAll(t, h[..p + 1]);
    var read := t.files[id].row;
    && id in after.files && after.files[id].row.version == read.version + 1
    && (if read.cycles >= cap
        then after.files[id].row.state == Stopped && after.files[id].row.cycles == read.cycles
             && after.files[id].row.terminalReason == Some(DecisionCycleLimitReached)
             && NoneLive(after.files[id].tokens)
        else after.files[id].row.state == DecisionPending && after.files[id].row.cycles == read.cycles + 1 <= cap)
    && EndsWith(after.files[id].log, "CASE_REVIEWED", "review_engine")
    && id in RunAll(t, h[..p]).files
    && var k := |RunAll(t, h[..p]).files[id].log|;
    && k < |after.files[id].log|
    && after.files[id].log[k].entry.eventType == StateTransition
    && after.files[id].log[k].entry.actor == "review_engine"
    && after.files[id].log[k].entry.action == (if read.cycles >= cap then None else recommended)
    && after.files[id].log[k].entry.reason ==
         if read.cycles >= cap then "decision cycle limit reached at review" else "review triggered by " + trigger
  }

  predicate EndsWith(log: seq<AuditRecord>, name: string, actor: string) {
    |log| > 0 && log[|log| - 1].entry.eventType == OtherEvent(name) && log[|log| - 1].entry.actor == actor
  }

  /** The commit at p is an attempt at this move of this case. */
  predicate AttemptedAt(h: seq<Commit>, p: nat, id: CaseId, move: Option<Attempt>) {
    p < |h| && h[p].OnCase? && h[p].id == id && move.Some? && h[p].moment.event == Transition(move.value)
  }

  /** What a review's move does when it is applied, however late: the case is as it was read, and the cap is kept. */
  lemma ReviewLands(
    t: Tenant, h: seq<Commit>, p: nat, promiseDue: bool, cap: int, trigger: string,
    recommended: Option<CandidateAction>)
    requires ValidTenant(t) && WellFormedHistory(h) && p < |h| && AppliedPosition(t, h, p) && h[p].id in t.files
    requires h[p].moment.event.Transition?
    requires ReviewMove(t.files[h[p].id].row, promiseDue, cap, trigger, recommended)
          == Some(h[p].moment.event.attempt)
    ensures ReviewTookEffect(t, h, p, cap, trigger, recommended)
  {
    hide Step, Invariant, RunAll, OnePendingPerKey, NoneLive, EndsWith;
    var id, before := h[p].id, RunAll(t, h[..p]);
    UnmovedMeansUnchanged(t, h[..p], id);
    HistoryKeepsValid(t, h[..p]);
    assert h[..p + 1] == h[..p] + [h[p]];
    RunOneMore(t, h[..p], h[p]);
    assert h[p] in h;
    MoveLands(before.files[id], h[p].moment);
  }

  lemma MoveLands(f: CaseFile, m: Moment)
    requires Invariant(f) && WellFormed(m) && AppliedBy(f, m)
    ensures var g, a := Step(f, m), m.event.attempt;
      && a.expectedVersion == f.row.version && g.row.version == f.row.version + 1 && g.row.state == a.target
      && g.row.cycles == f.row.cycles + (if a.target == DecisionPending then 1 else 0)
      && (IsTerminal(a.target) ==> NoneLive(g.tokens))
      && (IsTerminal(a.target) && a.terminalReason.Some? ==> g.row.terminalReason == a.terminalReason)
      && (a.alongside != [] ==> EndsWith(g.log, a.alongside[|a.alongside| - 1], a.actor))
      && |g.log| > |f.log| && g.log[|f.log|].entry.eventType == StateTransition
      && g.log[|f.log|].entry.actor == a.actor && g.log[|f.log|].entry.action == a.action
      && g.log[|f.log|].entry.reason == a.reason
  {
    hide Invariant, Transact, NoneLive, RecordsNeeded, HoldsUnexpiredToken, LiveCount, RuleFor;
    StepFacts(f, m);
    TransitionEffects(f, m.event.attempt, m.now);
    SuccessRecords(f, m.event.attempt, m.now);
    var g, a := Step(f, m), m.event.attempt;
    if a.alongside != [] {
      var n := |a.alongside|;
      assert g.log[|g.log| - n + (n - 1)] == g.log[|g.log| - 1];
    }
  }
}
