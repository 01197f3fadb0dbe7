/** Whether a case has anything left to decide. */
module Bounds {
  import opened Common
  import opened Transitions
  import opened CaseModel
  import opened CaseInvariants

  datatype Limits = Limits(maxRecoveryAttempts: int, maxCustomerMessages: int)

  datatype Bound = WindowElapsed | DecisionCycleLimit | MaxAttempts | MaxMessages

  /** The first bound that forbids another decision cycle, or None. */
  function BoundReached(row: CaseRow, limits: Limits, moment: Instant): Option<Bound> {
    if moment >= row.windowEndAt then Some(WindowElapsed)
    else if row.cycles >= limits.maxRecoveryAttempts then Some(DecisionCycleLimit)
    else if row.executed >= limits.maxRecoveryAttempts then Some(MaxAttempts)
    else if row.messages >= limits.maxCustomerMessages then Some(MaxMessages)
    else None
  }

  /** Each answer and exactly when it is given, on any row: the first of the four limits that is used up. */
  lemma BoundMeaning(row: CaseRow, limits: Limits, moment: Instant)
    ensures var bound := BoundReached(row, limits, moment);
      && (bound == Some(WindowElapsed) <==> row.windowEndAt <= moment)
      && (bound == Some(DecisionCycleLimit) <==>
            moment < row.windowEndAt && limits.maxRecoveryAttempts <= row.cycles)
      && (bound == Some(MaxAttempts) <==>
            moment < row.windowEndAt && row.cycles < limits.maxRecoveryAttempts <= row.executed)
      && (bound == Some(MaxMessages) <==>
            && moment < row.windowEndAt && row.cycles < limits.maxRecoveryAttempts
            && row.executed < limits.maxRecoveryAttempts && limits.maxCustomerMessages <= row.messages)
  {}

  /** On a reachable case the executed-action bound is never the answer: the cycle bound is spent first. */
  lemma AttemptsBoundNeverAnswered(row: CaseRow, limits: Limits, moment: Instant)
    requires ColumnsAgree(row)
    ensures BoundReached(row, limits, moment) != Some(MaxAttempts)
    ensures BoundReached(row, limits, moment).None? <==>
      moment < row.windowEndAt && row.cycles < limits.maxRecoveryAttempts
      && row.messages < limits.maxCustomerMessages
  {}

  // ---- Disposing of a case whose promise was missed ----

  datatype Disposition = ReturnedToDecision | StoppedAtBound | HeldForWindowSweep | TransitionRefused

  const PROMISE_ACTOR := "promise_manager"

  function BoundName(b: Bound): string {
    match b
    case WindowElapsed => "RECOVERY_WINDOW_ELAPSED"
    case DecisionCycleLimit => "DECISION_CYCLE_LIMIT_REACHED"
    case MaxAttempts => "MAX_ATTEMPTS_REACHED"
    case MaxMessages => "MAX_MESSAGES_REACHED"
  }

  /** The one move a missed promise asks for: another decision, or the end of the case. */
  function MissedMove(row: CaseRow, bound: Option<Bound>): Attempt {
    Attempt(
      row.version,
      if bound.None? then DecisionPending else Stopped,
      if bound.None? then "promise missed; re-deciding" else "promise missed; " + BoundName(bound.value),
      PROMISE_ACTOR,
      Some(PromiseToPayFollowUp),
      if bound.None? then None
      else if bound == Some(DecisionCycleLimit) then Some(DecisionCycleLimitReached)
      else Some(MaxAttemptsReached),
      false,
      Nothing,
      [])
  }

  /** The case and the answer after the disposition's transaction; Raised when the database refuses it. */
  function DisposeMissed(f: CaseFile, limits: Limits, now: Instant): (CaseFile, Result<Disposition>) {
    var bound := BoundReached(f.row, limits, now);
    if bound == Some(WindowElapsed) then (f, Success(HeldForWindowSweep))
    else
      var (g, verdict) := Transact(f, MissedMove(f.row, bound), now);
      match verdict
      case Applied => (g, Success(if bound.None? then ReturnedToDecision else StoppedAtBound))
      case Rejected(_) => (f, Success(TransitionRefused))
      case RolledBack => (f, Raised)
  }

  /** What each answer means for the case, for every reachable case. */
  lemma DispositionMeaning(f: CaseFile, limits: Limits, now: Instant)
    requires Invariant(f)
    ensures Invariant(DisposeMissed(f, limits, now).0)
    ensures var (g, answer) := DisposeMissed(f, limits, now);
      && (answer == Success(ReturnedToDecision) ==>
            && now < f.row.windowEndAt && f.row.messages < limits.maxCustomerMessages
            && g.row.state == DecisionPending && g.row.cycles == f.row.cycles + 1 <= limits.maxRecoveryAttempts
            && g.tokens == f.tokens && g.row.nextReviewAt.None?)
      && (answer == Success(StoppedAtBound) ==>
            && now < f.row.windowEndAt && g.row.state == Stopped && NoneLive(g.tokens)
            && g.row.cycles == f.row.cycles
            && g.row.terminalReason == Some(if f.row.cycles >= limits.maxRecoveryAttempts
                                            then DecisionCycleLimitReached else MaxAttemptsReached))
      && (answer.Raised? || answer.value in {HeldForWindowSweep, TransitionRefused} ==> g == f)
  {
    hide LogAgrees, Storable, RevokeLive, LiveCount;
    var bound := BoundReached(f.row, limits, now);
    AttemptsBoundNeverAnswered(f.row, limits, now);
    if bound != Some(WindowElapsed) {
      var a := MissedMove(f.row, bound);
      TransactKeepsInvariant(f, a, now);
      if RuleFor(f.row.state, a.target).Some? { EdgeCostsACycleOrClimbs(f.row.state, a.target); }
    }
  }

  /** Which answer is given, from the row alone: the move is never lost to a version conflict. */
  lemma DispositionCases(f: CaseFile, limits: Limits, now: Instant)
    requires Invariant(f)
    ensures var answer := DisposeMissed(f, limits, now).1;
      && (answer == Success(HeldForWindowSweep) <==> now >= f.row.windowEndAt)
      && (answer == Success(TransitionRefused) <==>
            now < f.row.windowEndAt &&
            if BoundReached(f.row, limits, now).None?
            then f.row.state !in {Diagnosed, PolicyCheck, Executing, WaitingForOutcome}
            else IsTerminal(f.row.state))
      && (answer.Raised? <==>
            && now < f.row.windowEndAt
            && (if BoundReached(f.row, limits, now).None?
                then f.row.state in {Diagnosed, PolicyCheck, Executing, WaitingForOutcome}
                     && (f.row.auditSeq == AUDIT_CEILING || f.row.cycles == COUNTER_CEILING)
                else !IsTerminal(f.row.state) && f.row.auditSeq == AUDIT_CEILING))
  {
    var bound := BoundReached(f.row, limits, now);
    if bound != Some(WindowElapsed) {
      var a := MissedMove(f.row, bound);
      if RuleFor(f.row.state, a.target).Some? { MovedStorable(f, a, now); }
    }
  }
}
