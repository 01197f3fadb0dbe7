/** Properties of whole runs of a case: any number of writers, in any order. */
module CaseRuns {
  import opened Common
  import opened Transitions
  import opened CaseModel
  import opened CaseInvariants
  import opened Bounds

  // ---- How a refusal goes on record ----

  /** Which kind of refusal the record names, from where the attempt was met to where it was going, and why. */
  predicate RefusalOnRecord(met: CaseRow, a: Attempt, entry: AuditEntry, now: Instant) {
    && entry.eventType == (if met.version != a.expectedVersion then VersionConflictRecorded
                           else IllegalTransitionRecorded)
    && entry.previousState == Some(met.state) && entry.newState == Some(a.target) && entry.actor == a.actor
    && entry.reason == (if met.version == a.expectedVersion && RuleFor(met.state, a.target).Some?
                        then "reconciliation to RECOVERED requires a verified captured read" else a.reason)
    && entry.action.None? && entry.user.None? && entry.tokensRevoked == 0 && entry.occurredAt == now
  }

  lemma RefusalIsRecorded(met: CaseRow, a: Attempt, now: Instant)
    requires Refused(met, a).Some?
    ensures RefusalOnRecord(met, a, RejectionEntry(Refused(met, a).value, a.actor, now), now)
    ensures Refused(met, a).value.refusal ==
      if met.version != a.expectedVersion then VersionConflict
      else if RuleFor(met.state, a.target).None? then IllegalEdge else CaptureNotVerified
  {
    hide RuleFor;
  }

  // ---- Exactly when an attempt commits ----

  /** The execution engine can put a working token in the message: one is live, or one can be issued and is. */
  predicate CanMint(f: CaseFile, m: OnSuccess, now: Instant)
    requires m.MintToken?
  {
    m.signing && (HoldsUnexpiredToken(f, now) || (m.lifetime > 0 && f.row.windowEndAt > now && !m.raced))
  }

  predicate HoldsUnexpiredToken(f: CaseFile, now: Instant) {
    exists t :: t in f.tokens && Live(t) && t.expiresAt > now
  }

  /** Whether the success hook goes through. */
  predicate HookSucceeds(f: CaseFile, a: Attempt, now: Instant) {
    && !a.onSuccess.GiveUp?
    && (a.onSuccess.MintToken? ==> CanMint(f, a.onSuccess, now))
  }

  /** Records the transaction will append: the transition, a token's issue, and whatever the hook adds. */
  function RecordsNeeded(f: CaseFile, a: Attempt, now: Instant): int {
    1 + (if a.onSuccess.MintToken? && !HoldsUnexpiredToken(f, now) then 1 else 0) + |a.alongside|
  }

  /** An attempt is applied iff nothing refuses it, its hook goes through, and both ceilings have room. */
  lemma AppliedIff(f: CaseFile, a: Attempt, now: Instant)
    requires Invariant(f) && Fits(a)
    ensures Transact(f, a, now).1.Applied? <==>
      && a.expectedVersion == f.row.version
      && RuleFor(f.row.state, a.target).Some?
      && (a.target == Recovered && f.row.state != WaitingForOutcome ==> a.verifiedCapture)
      && HookSucceeds(f, a, now)
      && f.row.auditSeq + RecordsNeeded(f, a, now) <= AUDIT_CEILING
      && (a.target == DecisionPending ==> f.row.cycles < COUNTER_CEILING)
    ensures !Transact(f, a, now).1.Applied? ==> Transact(f, a, now).0 == f
  {
    hide AfterSuccess, LogAgrees, HoldsUnexpiredToken, Mint, Storable;
    if Refused(f.row, a).None? {
      RefusedMeans(f.row, a);
      HookIff(f, a, now);
    }
  }

  lemma RefusedMeans(row: CaseRow, a: Attempt)
    ensures Refused(row, a).None? <==>
      && a.expectedVersion == row.version && RuleFor(row.state, a.target).Some?
      && (a.target == Recovered && row.state != WaitingForOutcome ==> a.verifiedCapture)
  {}

  lemma HookIff(f: CaseFile, a: Attempt, now: Instant)
    requires Invariant(f) && Fits(a) && RuleFor(f.row.state, a.target).Some?
    ensures var done := AfterSuccess(Moved(f, a, now), a, now);
      && (done.Some? <==> HookSucceeds(f, a, now))
      && (done.Some? ==>
            (Storable(done.value) <==>
               f.row.auditSeq + RecordsNeeded(f, a, now) <= AUDIT_CEILING
               && (a.target == DecisionPending ==> f.row.cycles < COUNTER_CEILING)))
  {
    hide Mint, HoldsUnexpiredToken, LiveCount, RevokeLive, RuleFor, CyclesMatchState, VersionWithinBound;
    var g := Moved(f, a, now);
    MovedKeepsLog(f, a, now);
    MovedKeepsTokens(f, a, now);
    MovedKeepsColumns(f.row, a, now);
    if a.onSuccess.MintToken? { MintIff(f, a, now); }
    if AfterSuccess(g, a, now).Some? { HookKeeps(g, a, now); }
  }

  lemma MintIff(f: CaseFile, a: Attempt, now: Instant)
    requires Invariant(f) && Fits(a) && a.onSuccess.MintToken? && RuleFor(f.row.state, a.target).Some?
    ensures var m := Mint(Moved(f, a, now), now, a.onSuccess, a.action);
      && (m.Some? <==> CanMint(f, a.onSuccess, now))
      && (m.Some? ==> m.value.row.auditSeq == f.row.auditSeq + RecordsNeeded(f, a, now) - |a.alongside|)
  {
    CountsLive(f.tokens);
    OnlyLive(f.tokens);
  }

  // ---- One step ----

  /** The columns only a transition may move. */
  predicate SameLifecycle(r: CaseRow, s: CaseRow) {
    && r.state == s.state && r.version == s.version
    && r.executed == s.executed && r.messages == s.messages && r.cycles == s.cycles
    && r.lastOutboundAt == s.lastOutboundAt && r.nextReviewAt == s.nextReviewAt
    && r.terminalReason == s.terminalReason
  }

  predicate AppliedBy(f: CaseFile, m: Moment) {
    m.event.Transition? && Transact(f, m.event.attempt, m.now).1.Applied?
  }

  /** No counter falls, the window end never moves, and the log only grows. */
  predicate NeverFalls(f: CaseFile, g: CaseFile) {
    && f.row.version <= g.row.version && f.row.executed <= g.row.executed
    && f.row.messages <= g.row.messages && f.row.cycles <= g.row.cycles
    && f.row.auditSeq <= g.row.auditSeq
    && f.row.windowEndAt == g.row.windowEndAt
    && f.log <= g.log
  }

  lemma TransitionFacts(f: CaseFile, a: Attempt, now: Instant)
    requires Invariant(f) && Fits(a) && Transact(f, a, now).1.Applied?
    ensures var g := Transact(f, a, now).0;
      && NeverFalls(f, g)
      && g.row.version == f.row.version + 1 && g.row.state == a.target
  {
    hide LogAgrees, Storable, AfterSuccess, TokensAgree;
    MovedKeepsColumns(f.row, a, now);
    MovedKeepsTokens(f, a, now);
    MovedKeepsLog(f, a, now);
    HookKeeps(Moved(f, a, now), a, now);
  }

  lemma StepFacts(f: CaseFile, m: Moment)
    requires Invariant(f) && WellFormed(m)
    ensures var g := Step(f, m);
      && NeverFalls(f, g)
      && g.row.version == f.row.version + (if AppliedBy(f, m) then 1 else 0)
      && (!AppliedBy(f, m) ==> SameLifecycle(f.row, g.row))
      && (AppliedBy(f, m) ==> m.event.attempt.expectedVersion == f.row.version
                              && g.row.state == m.event.attempt.target
                              && Refused(f.row, m.event.attempt).None?)
  {
    hide Invariant, Moved, AfterSuccess, Storable, RuleFor, RevokeLive;
    if AppliedBy(f, m) {
      TransitionFacts(f, m.event.attempt, m.now);
    } else {
      assert f.log <= f.log;
      if m.event.WriteRecords? { NotesStep(f, m); }
    }
  }

  /**
    Everything an applied transition does, told from its target alone: which counters move and by how much,
    what it forgets, which tokens it ends, and the one record that says so.
  */
  lemma TransitionEffects(f: CaseFile, a: Attempt, now: Instant)
    requires Invariant(f) && Fits(a) && Transact(f, a, now).1.Applied?
    ensures var (g, _) := Transact(f, a, now);
      && g.row.executed == f.row.executed + (if a.target == Executing then 1 else 0)
      && g.row.messages == f.row.messages +
           (if a.target == Executing
               && a.action in {Some(PaymentLink), Some(CustomerMessage), Some(PromiseToPayFollowUp)} then 1 else 0)
      && g.row.cycles == f.row.cycles + (if a.target == DecisionPending then 1 else 0)
      && g.row.lastOutboundAt == (if a.target == Executing then Some(now) else f.row.lastOutboundAt)
      && (!a.onSuccess.ScheduleReview? ==>
            g.row.nextReviewAt == (if f.row.state == PolicyCheck then None else f.row.nextReviewAt))
      && (a.onSuccess.ScheduleReview? ==>
            var reviewAt := now + a.onSuccess.interval;
            g.row.nextReviewAt ==
              if reviewAt <= now || f.row.windowEndAt <= now then None
              else if reviewAt <= f.row.windowEndAt then Some(reviewAt) else Some(f.row.windowEndAt))
      && g.row.terminalReason == (if IsTerminal(a.target) && a.terminalReason.Some? then a.terminalReason
                                  else f.row.terminalReason)
      && (IsTerminal(a.target) ==> NoneLive(g.tokens) && |g.tokens| == |f.tokens|)
      && (a.onSuccess.MintToken? ==> HoldsUnexpiredToken(g, now))
      && g.row.owner == f.row.owner && g.row.windowEndAt == f.row.windowEndAt
      && |g.log| == |f.log| + RecordsNeeded(f, a, now)
      && g.log[|f.log|] == AuditRecord(
           f.row.auditSeq + 1,
           AuditEntry(StateTransition, a.actor, Some(f.row.state), Some(a.target), a.action, None, a.reason,
                      if IsTerminal(a.target) then LiveCount(f.tokens) else 0, now))
  {
    hide LogAgrees, Storable, LiveCount, CyclesMatchState, ExecutionsWithinCycles, VersionWithinBound;
    hide AfterSuccess, HoldsUnexpiredToken;
    EffectsByTarget(f.row.state, a.target);
    if IsTerminal(a.target) { RevokingEnds(f.tokens, now, CaseTerminal); }
    MovedKeepsTokens(f, a, now);
    MovedKeepsLog(f, a, now);
    HookKeeps(Moved(f, a, now), a, now);
    LogLength(f);
    LogLength(AfterSuccess(Moved(f, a, now), a, now).value);
    if a.onSuccess.MintToken? {
      MintIff(f, a, now);
      MintedIsUsable(Moved(f, a, now), now, a.onSuccess, a.action);
      SameTokens(Mint(Moved(f, a, now), now, a.onSuccess, a.action).value, Transact(f, a, now).0, now);
    }
  }

  /**
    The tokens after an applied transition whose hook mints none: an ending revokes every live one, at its instant
    and because the case has ended, and anything else leaves them all alone.
  */
  lemma TransitionTokens(f: CaseFile, a: Attempt, now: Instant)
    requires Invariant(f) && Fits(a) && Transact(f, a, now).1.Applied? && !a.onSuccess.MintToken?
    ensures var g := Transact(f, a, now).0;
      && |g.tokens| == |f.tokens|
      && forall i :: 0 <= i < |f.tokens| ==>
           g.tokens[i] == if IsTerminal(a.target) && f.tokens[i].revokedAt.None?
                          then f.tokens[i].(revokedAt := Some(now), revocation := Some(CaseTerminal)) else f.tokens[i]
  {
    hide LogAgrees, Storable, LiveCount, CyclesMatchState, ExecutionsWithinCycles, VersionWithinBound, AfterSuccess;
    hide ChecksHold;
    MovedKeepsTokens(f, a, now);
    MovedKeepsLog(f, a, now);
    HookKeeps(Moved(f, a, now), a, now);
  }

  /** The records of the hook close the log, in order, in the name of whoever made the move. */
  lemma SuccessRecords(f: CaseFile, a: Attempt, now: Instant)
    requires Transact(f, a, now).1.Applied?
    ensures var g, n := Transact(f, a, now).0, |a.alongside|;
      && |g.log| >= |f.log| + 1 + n && f.log <= g.log
      && forall i :: 0 <= i < n ==>
           g.log[|g.log| - n + i].entry
             == AuditEntry(OtherEvent(a.alongside[i]), a.actor, None, Some(a.target), a.action, None, "", 0, now)
  {
    hide RuleFor, RevokeLive, LiveCount, Storable, WithRecords, Moved, Mint, MovedRow;
    var moved := Moved(f, a, now);
    var hooked := Hooked(moved, a, now).value;
    MoveGrows(f, a, now);
    if a.onSuccess.MintToken? { MintGrows(moved, now, a.onSuccess, a.action); }
    RecordsWritten(hooked, HookEntries(a, now));
    var g, n := Transact(f, a, now).0, |a.alongside|;
    PrefixOfPrefix(f.log, moved.log, hooked.log);
    PrefixOfPrefix(f.log, hooked.log, g.log);
    assert |g.log| - n == |hooked.log|;
    forall i | 0 <= i < n ensures g.log[|g.log| - n + i].entry == HookEntry(a.alongside[i], a, now) {
      assert g.log[|hooked.log| + i].entry == HookEntries(a, now)[i];
    }
  }

  lemma MoveGrows(f: CaseFile, a: Attempt, now: Instant)
    requires RuleFor(f.row.state, a.target).Some?
    ensures f.log <= Moved(f, a, now).log && |Moved(f, a, now).log| == |f.log| + 1
  {}

  lemma MintGrows(f: CaseFile, now: Instant, m: OnSuccess, action: Option<CandidateAction>)
    requires m.MintToken? && Mint(f, now, m, action).Some?
    ensures f.log <= Mint(f, now, m, action).value.log
  {}

  lemma LogLength(f: CaseFile)
    requires LogAgrees(f)
    ensures |f.log| == f.row.auditSeq
  {}

  lemma SameTokens(f: CaseFile, g: CaseFile, now: Instant)
    requires f.tokens == g.tokens
    ensures HoldsUnexpiredToken(f, now) <==> HoldsUnexpiredToken(g, now)
  {}

  lemma EffectsByTarget(s: CaseState, t: CaseState)
    requires RuleFor(s, t).Some?
    ensures RuleFor(s, t).value.effects ==
      if t == Executing then OUTBOUND else if t == DecisionPending then ONE_CYCLE else NO_EFFECTS
  {}

  lemma MintedIsUsable(f: CaseFile, now: Instant, m: OnSuccess, action: Option<CandidateAction>)
    requires m.MintToken? && Mint(f, now, m, action).Some?
    ensures var g := Mint(f, now, m, action).value;
      HoldsUnexpiredToken(g, now) && f.log <= g.log && g.row == f.row.(auditSeq := g.row.auditSeq)
  {
    CountsLive(f.tokens);
    var g := Mint(f, now, m, action).value;
    if g != f { assert Live(g.tokens[|g.tokens| - 1]) && g.tokens[|g.tokens| - 1].expiresAt > now; }
  }

  /** The record a disposition leaves: by the promise manager, for the follow-up that was missed, and why. */
  lemma DispositionOnRecord(f: CaseFile, limits: Limits, now: Instant)
    requires Invariant(f)
    requires DisposeMissed(f, limits, now).1 in {Success(ReturnedToDecision), Success(StoppedAtBound)}
    ensures var g := DisposeMissed(f, limits, now).0;
      && |g.log| == |f.log| + 1 && g.log[|f.log|].entry.eventType == StateTransition
      && g.log[|f.log|].entry.actor == "promise_manager"
      && g.log[|f.log|].entry.action == Some(PromiseToPayFollowUp)
      && g.log[|f.log|].entry.reason ==
           (if f.row.cycles >= limits.maxRecoveryAttempts then "promise missed; " + "DECISION_CYCLE_LIMIT_REACHED"
            else if f.row.messages >= limits.maxCustomerMessages then "promise missed; " + "MAX_MESSAGES_REACHED"
            else "promise missed; re-deciding")
  {
    hide Invariant, Transact, NoneLive, HoldsUnexpiredToken, LiveCount, RuleFor, MissedMove;
    MissedMoveSays(f, limits, now);
    DispositionOutcome(f, limits, now);
    TransitionEffects(f, MissedMove(f.row, BoundReached(f.row, limits, now)), now);
  }

  lemma DispositionOutcome(f: CaseFile, limits: Limits, now: Instant)
    requires DisposeMissed(f, limits, now).1 in {Success(ReturnedToDecision), Success(StoppedAtBound)}
    ensures now < f.row.windowEndAt
    ensures var t := Transact(f, MissedMove(f.row, BoundReached(f.row, limits, now)), now);
      t.1.Applied? && DisposeMissed(f, limits, now).0 == t.0
  {
    hide Transact, MissedMove;
  }

  lemma MissedMoveSays(f: CaseFile, limits: Limits, now: Instant)
    requires Invariant(f)
    ensures var a := MissedMove(f.row, BoundReached(f.row, limits, now));
      && a.actor == "promise_manager" && a.action == Some(PromiseToPayFollowUp) && a.onSuccess == Nothing
      && a.alongside == [] && a.target in {DecisionPending, Stopped}
      && (now < f.row.windowEndAt ==>
            a.reason ==
              if f.row.cycles >= limits.maxRecoveryAttempts then "promise missed; " + "DECISION_CYCLE_LIMIT_REACHED"
              else if f.row.messages >= limits.maxCustomerMessages then "promise missed; " + "MAX_MESSAGES_REACHED"
              else "promise missed; re-deciding")
  {
    hide Invariant;
    AttemptsFree(f, limits, now);
  }

  lemma AttemptsFree(f: CaseFile, limits: Limits, now: Instant)
    requires Invariant(f)
    ensures BoundReached(f.row, limits, now) != Some(MaxAttempts)
  {
    AttemptsBoundNeverAnswered(f.row, limits, now);
  }

  /** Suppressing a customer's contact ends every working link for that reason, and touches nothing else. */
  lemma SuppressionEnds(f: CaseFile, now: Instant)
    ensures var g := Step(f, Moment(now, SuppressContact));
      && g.row == f.row && g.log == f.log && |g.tokens| == |f.tokens|
      && forall i :: 0 <= i < |f.tokens| ==>
           g.tokens[i] == if f.tokens[i].revokedAt.Some? then f.tokens[i]
                          else f.tokens[i].(revokedAt := Some(now), revocation := Some(ContactSuppressed))
  {}

  // ---- Optimistic concurrency ----

  predicate AppliedAt(f: CaseFile, run: seq<Moment>, k: nat)
    requires k < |run|
  {
    AppliedBy(At(f, run, k), run[k])
  }

  function AppliedCount(f: CaseFile, run: seq<Moment>, k: nat): nat
    requires k <= |run|
  {
    if k == 0 then 0 else AppliedCount(f, run, k - 1) + if AppliedAt(f, run, k - 1) then 1 else 0
  }

  lemma {:induction false} RunFacts(f: CaseFile, run: seq<Moment>, i: nat, j: nat)
    requires Invariant(f) && WellFormedRun(run) && i <= j <= |run|
    ensures NeverFalls(At(f, run, i), At(f, run, j))
    ensures At(f, run, j).row.version
         == At(f, run, i).row.version + AppliedCount(f, run, j) - AppliedCount(f, run, i)
    ensures AppliedCount(f, run, i) <= AppliedCount(f, run, j)
    ensures At(f, run, i).row.version == At(f, run, j).row.version ==>
      SameLifecycle(At(f, run, i).row, At(f, run, j).row)
  {
    hide Invariant, Step, Transact;
    if i < j {
      RunFacts(f, run, i, j - 1);
      RunKeepsInvariant(f, run, j - 1);
      StepFacts(At(f, run, j - 1), run[j - 1]);
    }
  }

  /** Of all the attempts in a run, no two that are applied expected the same version. */
  lemma OneWinnerPerVersion(f: CaseFile, run: seq<Moment>, i: nat, j: nat)
    requires Invariant(f) && WellFormedRun(run) && i < j < |run|
    requires AppliedAt(f, run, i) && AppliedAt(f, run, j)
    ensures run[i].event.attempt.expectedVersion < run[j].event.attempt.expectedVersion
  {
    hide Invariant, Step, Transact;
    RunKeepsInvariant(f, run, i);
    StepFacts(At(f, run, i), run[i]);
    RunFacts(f, run, i + 1, j);
    RunKeepsInvariant(f, run, j);
    StepFacts(At(f, run, j), run[j]);
  }

  /** The version is one more than the number of transitions applied since the case was opened. */
  lemma VersionCountsTransitions(windowEndAt: Instant, start: Instant, run: seq<Moment>)
    requires WellFormedRun(run)
    ensures At(Opened(windowEndAt, start), run, |run|).row.version
         == 1 + AppliedCount(Opened(windowEndAt, start), run, |run|)
  {
    hide Invariant, Step, Transact;
    OpenedInvariant(windowEndAt, start);
    RunFacts(Opened(windowEndAt, start), run, 0, |run|);
  }

  // ---- Terminal states ----

  /** After a case ends, the only later move is one reconciliation to Recovered, on a verified capture. */
  lemma {:induction false} EndedStaysEnded(f: CaseFile, run: seq<Moment>, i: nat, j: nat)
    requires Invariant(f) && WellFormedRun(run) && i <= j <= |run|
    requires IsTerminal(At(f, run, i).row.state)
    ensures var before, after := At(f, run, i).row, At(f, run, j).row;
      || (after.state == before.state && after.version == before.version)
      || (before.state != Recovered && after.state == Recovered && after.version == before.version + 1
          && exists k :: i <= k < j && AppliedAt(f, run, k) && run[k].event.attempt.verifiedCapture)
  {
    if i < j {
      EndedStaysEnded(f, run, i, j - 1);
      RunKeepsInvariant(f, run, j - 1);
      StepFacts(At(f, run, j - 1), run[j - 1]);
      if AppliedAt(f, run, j - 1) {
        assert IsTerminal(At(f, run, j - 1).row.state);
        assert run[j - 1].event.attempt.verifiedCapture;
      }
    }
  }

  // ---- Termination ----

  /** However many writers race, a case takes at most 5c + 3 transitions for c decision cycles, and 53 in all. */
  lemma TransitionsBounded(windowEndAt: Instant, start: Instant, run: seq<Moment>)
    requires WellFormedRun(run)
    ensures var f := Opened(windowEndAt, start);
      AppliedCount(f, run, |run|) <= 5 * Max(1, At(f, run, |run|).row.cycles) + 3 <= 53
  {
    hide LogAgrees, TokensAgree, Step, Opened, WellFormedRun;
    var f := Opened(windowEndAt, start);
    OpenedInvariant(windowEndAt, start);
    RunKeepsInvariant(f, run, |run|);
    VersionCountsTransitions(windowEndAt, start, run);
  }

  function PlainAttempt(version: int, target: CaseState): Attempt {
    Attempt(version, target, "", "", None, None, true, Nothing, [])
  }

  /** The attempts that walk a case along a path, one version at a time. */
  function Walk(version: int, path: seq<CaseState>, now: Instant): seq<Moment> {
    seq(Max(0, |path| - 1), i requires 0 <= i < |path| - 1 =>
      Moment(now, Transition(PlainAttempt(version + i, path[i + 1]))))
  }

  lemma OneStepAlong(f: CaseFile, target: CaseState, now: Instant)
    requires Invariant(f) && RuleFor(f.row.state, target).Some?
    requires f.row.auditSeq < AUDIT_CEILING && (target == DecisionPending ==> f.row.cycles < COUNTER_CEILING)
    ensures var g := Step(f, Moment(now, Transition(PlainAttempt(f.row.version, target))));
      && g.row.state == target && g.row.version == f.row.version + 1 && g.row.auditSeq == f.row.auditSeq + 1
      && g.row.cycles == f.row.cycles + if target == DecisionPending then 1 else 0
  {
    EdgeCostsACycleOrClimbs(f.row.state, target);
    AppliedIff(f, PlainAttempt(f.row.version, target), now);
  }

  /** Every legal path within the two ceilings can actually be walked, step by step. */
  lemma {:induction false} LegalPathsAreWalked(f: CaseFile, path: seq<CaseState>, now: Instant, k: nat)
    requires Invariant(f) && LegalPath(path) && k < |path| && path[0] == f.row.state
    requires f.row.cycles + Reentries(path) <= COUNTER_CEILING
    requires f.row.auditSeq + |path| <= AUDIT_CEILING
    ensures var g := At(f, Walk(f.row.version, path, now), k);
      g.row.state == path[k] && g.row.version == f.row.version + k
      && g.row.cycles == f.row.cycles + Reentries(path[..k + 1]) && g.row.auditSeq == f.row.auditSeq + k
  {
    hide Invariant, Step, RuleFor;
    var run := Walk(f.row.version, path, now);
    assert path[..k + 1][..k] == path[..k];
    if k > 0 {
      LegalPathsAreWalked(f, path, now, k - 1);
      RunKeepsInvariant(f, run, k - 1);
      ReentriesGrow(path, k + 1);
      OneStepAlong(At(f, run, k - 1), path[k], now);
    }
  }

  lemma {:induction false} ReentriesGrow(path: seq<CaseState>, k: nat)
    requires k <= |path|
    ensures Reentries(path[..k]) <= Reentries(path)
    decreases |path| - k
  {
    if k == |path| {
      assert path[..k] == path;
    } else {
      ReentriesGrow(path, k + 1);
      assert path[..k + 1][..k] == path[..k];
    }
  }

  /** What a walk looks like from outside: where it starts and ends, how long it is, what it costs. */
  predicate Walked(path: seq<CaseState>, length: nat, last: CaseState, reentries: nat) {
    && |path| == length > 0 && path[0] == Detected && path[length - 1] == last
    && LegalPath(path) && Reentries(path) == reentries
  }

  lemma Onward(path: seq<CaseState>, length: nat, last: CaseState, reentries: nat, next: CaseState)
    requires Walked(path, length, last, reentries) && RuleFor(last, next).Some?
    ensures Walked(path + [next], length + 1, next, reentries + if next == DecisionPending then 1 else 0)
  {
    assert (path + [next])[..length] == path;
  }

  /** From one decision through execution to waiting for its outcome. */
  lemma ToWaiting(path: seq<CaseState>, length: nat, reentries: nat) returns (longer: seq<CaseState>)
    requires Walked(path, length, DecisionPending, reentries)
    ensures Walked(longer, length + 4, WaitingForOutcome, reentries)
  {
    Onward(path, length, DecisionPending, reentries, PolicyCheck);
    longer := path + [PolicyCheck];
    Onward(longer, length + 1, PolicyCheck, reentries, ActionScheduled);
    longer := longer + [ActionScheduled];
    Onward(longer, length + 2, ActionScheduled, reentries, Executing);
    longer := longer + [Executing];
    Onward(longer, length + 3, Executing, reentries, WaitingForOutcome);
    longer := longer + [WaitingForOutcome];
  }

  /** From opening to the n-th decision, round the longest loop every time. */
  lemma {:induction false} Decisions(n: nat) returns (path: seq<CaseState>)
    requires n > 0
    ensures Walked(path, 5 * n - 2, DecisionPending, n)
  {
    if n == 1 {
      path := [Detected];
      Onward(path, 1, Detected, 0, Diagnosed);
      Onward(path + [Diagnosed], 2, Diagnosed, 0, DecisionPending);
      path := path + [Diagnosed] + [DecisionPending];
    } else {
      path := Decisions(n - 1);
      path := ToWaiting(path, 5 * n - 7, n - 1);
      Onward(path, 5 * n - 3, WaitingForOutcome, n - 1, DecisionPending);
      path := path + [DecisionPending];
    }
  }

  /** The longest walk with n decisions: it waits for its last outcome, is stopped, and is then reconciled. */
  lemma LongestWalk(n: nat) returns (path: seq<CaseState>)
    requires n > 0
    ensures Walked(path, 5 * n + 4, Recovered, n)
  {
    path := Decisions(n);
    path := ToWaiting(path, 5 * n - 2, n);
    Onward(path, 5 * n + 2, WaitingForOutcome, n, Stopped);
    path := path + [Stopped];
    Onward(path, 5 * n + 3, Stopped, n, Recovered);
    path := path + [Recovered];
  }

  /** The bound is the best possible: for every number of cycles the schema allows, some run attains it. */
  lemma BoundAttained(n: nat, windowEndAt: Instant, start: Instant)
    requires 1 <= n <= COUNTER_CEILING
    ensures exists run ::
      (WellFormedRun(run)
       && At(Opened(windowEndAt, start), run, |run|).row.cycles == n
       && AppliedCount(Opened(windowEndAt, start), run, |run|) == 5 * n + 3)
  {
    hide Invariant, Step, LegalPath;
    var path := LongestWalk(n);
    var f := Opened(windowEndAt, start);
    OpenedInvariant(windowEndAt, start);
    LegalPathsAreWalked(f, path, start, |path| - 1);
    assert path[..|path|] == path;
    VersionCountsTransitions(windowEndAt, start, Walk(f.row.version, path, start));
  }

  /** In every reachable state the columns and the tokens agree, whatever ran. */
  lemma EveryCaseAgrees(windowEndAt: Instant, start: Instant, run: seq<Moment>)
    requires WellFormedRun(run)
    ensures var g := At(Opened(windowEndAt, start), run, |run|);
      && (g.row.nextReviewAt.Some? ==> g.row.state == PolicyCheck && g.row.nextReviewAt.value <= g.row.windowEndAt)
      && (IsTerminal(g.row.state) ==> NoneLive(g.tokens))
      && LiveCount(g.tokens) <= 1
      && (forall t :: t in g.tokens ==> t.expiresAt <= windowEndAt)
      && 0 <= g.row.messages <= g.row.executed <= g.row.cycles <= 10
      && g.row.windowEndAt == windowEndAt
      && (g.row.owner.Some? <==> g.row.assignedAt.Some?)
      && (g.row.terminalReason.Some? ==> IsTerminal(g.row.state))
  {
    hide Invariant, Step, LiveCount, NoneLive, Opened, WellFormedRun;
    var f := Opened(windowEndAt, start);
    OpenedInvariant(windowEndAt, start);
    OpenedWindow(windowEndAt, start);
    RunKeepsInvariant(f, run, |run|);
    RunFacts(f, run, 0, |run|);
    assert At(f, run, 0) == f;
    hide At, AppliedCount;
    InvariantMeans(At(f, run, |run|));
  }

  lemma OpenedWindow(windowEndAt: Instant, start: Instant)
    ensures Opened(windowEndAt, start).row.windowEndAt == windowEndAt
  {}

  lemma InvariantMeans(g: CaseFile)
    requires Invariant(g)
    ensures g.row.nextReviewAt.Some? ==> g.row.state == PolicyCheck && g.row.nextReviewAt.value <= g.row.windowEndAt
    ensures IsTerminal(g.row.state) ==> NoneLive(g.tokens)
    ensures LiveCount(g.tokens) <= 1
    ensures forall t :: t in g.tokens ==> t.expiresAt <= g.row.windowEndAt
    ensures 0 <= g.row.messages <= g.row.executed <= g.row.cycles <= COUNTER_CEILING
    ensures g.row.owner.Some? <==> g.row.assignedAt.Some?
    ensures g.row.terminalReason.Some? ==> IsTerminal(g.row.state)
  {
    CountsLive(g.tokens);
  }

  // ---- The audit log, over whole runs ----

  /** After any run the log holds numbers 1..auditSeq once each, and replaying it gives the row. */
  lemma LogDeterminesCase(windowEndAt: Instant, start: Instant, run: seq<Moment>)
    requires WellFormedRun(run)
    ensures var g := At(Opened(windowEndAt, start), run, |run|);
      && |g.log| == g.row.auditSeq <= 10_000
      && (forall i :: 0 <= i < |g.log| ==> g.log[i].seqNo == i + 1)
      && Replay(g.log) == Project(g.row)
  {
    OpenedInvariant(windowEndAt, start);
    RunKeepsInvariant(Opened(windowEndAt, start), run, |run|);
  }

  /** The finished log still holds every intermediate state: its prefix at any past instant replays to it. */
  lemma PastIsReadable(windowEndAt: Instant, start: Instant, run: seq<Moment>, i: nat)
    requires WellFormedRun(run) && i <= |run|
    ensures var f := Opened(windowEndAt, start);
      var past, last := At(f, run, i), At(f, run, |run|);
      past.row.auditSeq <= |last.log| && 0 <= past.row.auditSeq
      && Replay(last.log[..past.row.auditSeq]) == Project(past.row)
  {
    var f := Opened(windowEndAt, start);
    OpenedInvariant(windowEndAt, start);
    RunKeepsInvariant(f, run, i);
    RunFacts(f, run, i, |run|);
    var past, last := At(f, run, i), At(f, run, |run|);
    assert last.log[..|past.log|] == past.log;
  }

  /**
    Reading states off every record would be wrong: an illegal attempt is refused, and the record of its refusal
    names a state the case never enters.
  */
  lemma RefusalsNameStatesNeverEntered(windowEndAt: Instant, now: Instant)
    ensures var f, illegal := Opened(windowEndAt, now), PlainAttempt(1, Executing);
      var refused := Refused(f.row, illegal);
      && refused.Some? && refused.value.refusal == IllegalEdge
      && var run := [Moment(now, Transition(illegal)), Moment(now, RecordRejection(refused.value, illegal.actor))];
      && WellFormedRun(run)
      && var g := At(f, run, 2);
      && |g.log| == 2 && g.log[1].seqNo == 2 && RefusalOnRecord(f.row, illegal, g.log[1].entry, now)
      && g.log[1].entry.eventType == IllegalTransitionRecorded
      && g.log[1].entry.newState == Some(Executing)
      && forall k: nat :: k <= 2 ==> At(f, run, k).row.state == Detected
  {
    var f, illegal := Opened(windowEndAt, now), PlainAttempt(1, Executing);
    var refused := Refused(f.row, illegal).value;
    var run := [Moment(now, Transition(illegal)), Moment(now, RecordRejection(refused, illegal.actor))];
    assert At(f, run, 0) == f;
    assert At(f, run, 1) == f;
    assert At(f, run, 2) == Append(f, RejectionEntry(refused, illegal.actor, now));
  }

  // ---- The audit ceiling ----

  /** Events attached to a case one after another, each with its record. */
  function Attached(n: nat, now: Instant): seq<Moment> {
    seq(n, _ => Moment(now, WriteRecords([Note("EVENT_ATTACHED_TO_CASE", "detection_engine", None, None)])))
  }

  lemma {:induction false} AttachedFills(f: CaseFile, n: nat, now: Instant, k: nat)
    requires Invariant(f) && k <= n && f.row.auditSeq + n <= AUDIT_CEILING
    ensures At(f, Attached(n, now), k).row == f.row.(auditSeq := f.row.auditSeq + k)
  {
    hide Invariant, Step;
    if k > 0 {
      AttachedFills(f, n, now, k - 1);
      RunKeepsInvariant(f, Attached(n, now), k - 1);
      AttachedStep(At(f, Attached(n, now), k - 1), Attached(n, now)[k - 1]);
    }
  }

  lemma AttachedStep(f: CaseFile, m: Moment)
    requires Invariant(f) && m.event.WriteRecords? && |m.event.notes| == 1 && f.row.auditSeq < AUDIT_CEILING
    ensures Step(f, m).row == f.row.(auditSeq := f.row.auditSeq + 1)
  {
    hide Invariant, Step;
    NotesStep(f, m);
  }

  /** Attached events alone bring a live case to the audit ceiling. */
  lemma CeilingReached(windowEndAt: Instant, start: Instant)
    ensures var run := Attached(AUDIT_CEILING - 1, start);
      var g := At(Opened(windowEndAt, start), run, AUDIT_CEILING - 1);
      && |run| == AUDIT_CEILING - 1 && WellFormedRun(run) && Invariant(g)
      && g.row.auditSeq == AUDIT_CEILING && g.row.state == Detected && g.row.windowEndAt == windowEndAt
  {
    hide Invariant, Step, At;
    OpenedInvariant(windowEndAt, start);
    AttachedFills(Opened(windowEndAt, start), AUDIT_CEILING - 1, start, AUDIT_CEILING - 1);
    RunKeepsInvariant(Opened(windowEndAt, start), Attached(AUDIT_CEILING - 1, start), AUDIT_CEILING - 1);
  }

  lemma FullLogRefuses(f: CaseFile, m: Moment)
    requires Invariant(f) && WellFormed(m) && f.row.auditSeq == AUDIT_CEILING
    ensures Step(f, m).row == f.row && Step(f, m).log == f.log
  {
    if m.event.Transition? { AppliedIff(f, m.event.attempt, m.now); }
    if m.event.WriteRecords? {
      NotesStep(f, m);
      if m.event.notes == [] { assert NoteEntries([], m.now) == []; }
    }
  }

  /** A full log freezes the case: no transaction of any component changes its row again. */
  lemma {:induction false} FullLogFreezes(f: CaseFile, run: seq<Moment>, k: nat)
    requires Invariant(f) && WellFormedRun(run) && k <= |run| && f.row.auditSeq == 10_000
    ensures At(f, run, k).row == f.row && At(f, run, k).log == f.log
  {
    hide Invariant, Step;
    if k > 0 {
      FullLogFreezes(f, run, k - 1);
      RunKeepsInvariant(f, run, k - 1);
      FullLogRefuses(At(f, run, k - 1), run[k - 1]);
    }
  }

  // ---- The configured cap on decision cycles ----

  /** A re-entry into deciding: the edges that come back, as against the one out of diagnosis. */
  predicate Reenters(f: CaseFile, run: seq<Moment>, k: nat)
    requires k < |run|
  {
    run[k].event.Transition? && run[k].event.attempt.target == DecisionPending
    && At(f, run, k).row.state != Diagnosed
  }

  /**
    How the guarded callers decide to re-enter: under the row lock, when no bound is reached; or from
    a read taken earlier in the run under the cap, acted on at the version that was read.
  */
  predicate Admitted(f: CaseFile, run: seq<Moment>, limits: Limits, k: nat)
    requires k < |run| && run[k].event.Transition?
  {
    || BoundReached(At(f, run, k).row, limits, run[k].now).None?
    || exists j :: 0 <= j <= k && ReadUnderCap(At(f, run, j).row, run[k].event.attempt.expectedVersion, limits)
  }

  predicate ReadUnderCap(row: CaseRow, version: int, limits: Limits) {
    row.version == version && row.cycles < limits.maxRecoveryAttempts
  }

  predicate Guarded(f: CaseFile, run: seq<Moment>, limits: Limits) {
    forall k :: 0 <= k < |run| && Reenters(f, run, k) ==> Admitted(f, run, limits, k)
  }

  /** Checking the cap on one read and acting on another transaction is safe: the version carries the check. */
  lemma {:induction false} CapHolds(f: CaseFile, run: seq<Moment>, limits: Limits, k: nat)
    requires Invariant(f) && WellFormedRun(run) && Guarded(f, run, limits) && k <= |run|
    requires f.row.cycles <= Max(1, limits.maxRecoveryAttempts)
    ensures At(f, run, k).row.cycles <= Max(1, limits.maxRecoveryAttempts)
  {
    hide LogAgrees, TokensAgree, Step, Transact, RuleFor;
    if k > 0 {
      CapHolds(f, run, limits, k - 1);
      RunKeepsInvariant(f, run, k - 1);
      var g, m := At(f, run, k - 1), run[k - 1];
      assert m in run;
      CyclesAfter(g, m);
      StepFacts(g, m);
      if Reenters(f, run, k - 1) && BoundReached(g.row, limits, m.now).Some? {
        var j :| 0 <= j <= k - 1 && ReadUnderCap(At(f, run, j).row, m.event.attempt.expectedVersion, limits);
        RunFacts(f, run, j, k - 1);
      }
    }
  }

  /** A step costs a decision cycle exactly when it applies an attempt to enter DecisionPending. */
  lemma CyclesAfter(f: CaseFile, m: Moment)
    requires Invariant(f) && WellFormed(m)
    ensures Step(f, m).row.cycles == f.row.cycles +
      if AppliedBy(f, m) && m.event.attempt.target == DecisionPending then 1 else 0
    ensures f.row.state == Diagnosed ==> f.row.cycles == 0
  {
    hide LogAgrees, Storable, AfterSuccess, TokensAgree;
    if AppliedBy(f, m) {
      var a := m.event.attempt;
      EdgeCostsACycleOrClimbs(f.row.state, a.target);
      MovedKeepsTokens(f, a, m.now);
      MovedKeepsLog(f, a, m.now);
      HookKeeps(Moved(f, a, m.now), a, m.now);
    } else {
      StepFacts(f, m);
    }
  }

  /** From opening to the first decision, by the shortest way. */
  const FIRST_DECISION: seq<Moment> := [
    Moment(0, Transition(PlainAttempt(1, Diagnosed))), Moment(0, Transition(PlainAttempt(2, DecisionPending)))
  ]

  lemma FirstDecisionTaken()
    ensures var f := Opened(0, 0);
      && At(f, FIRST_DECISION, 0).row.state == Detected && At(f, FIRST_DECISION, 1).row.state == Diagnosed
      && At(f, FIRST_DECISION, 2).row.cycles == 1
  {
    hide Invariant, Step;
    var f := Opened(0, 0);
    OpenedInvariant(0, 0);
    OneStepAlong(f, Diagnosed, 0);
    RunKeepsInvariant(f, FIRST_DECISION, 1);
    assert At(f, FIRST_DECISION, 1) == Step(f, FIRST_DECISION[0]);
    OneStepAlong(At(f, FIRST_DECISION, 1), DecisionPending, 0);
  }

  lemma FirstDecisionUnguarded(limits: Limits)
    requires limits.maxRecoveryAttempts < 1
    ensures !CapNeverExceeded(limits)
  {
    hide At, Opened, Invariant, Admitted;
    FirstDecisionTaken();
    assert Guarded(Opened(0, 0), FIRST_DECISION, limits);
    assert WellFormedRun(FIRST_DECISION) && |FIRST_DECISION| == 2;
  }

  /** No guarded run of any case exceeds the cap. */
  ghost predicate CapNeverExceeded(limits: Limits) {
    forall w, start, run | WellFormedRun(run) && Guarded(Opened(w, start), run, limits) ::
      At(Opened(w, start), run, |run|).row.cycles <= limits.maxRecoveryAttempts
  }

  /** The cap holds over all guarded runs exactly when it is at least one: the first decision is not guarded. */
  lemma CapHoldsIff(limits: Limits)
    ensures CapNeverExceeded(limits) <==> limits.maxRecoveryAttempts >= 1
  {
    hide Invariant, Step;
    if limits.maxRecoveryAttempts >= 1 {
      forall w, start, run | WellFormedRun(run) && Guarded(Opened(w, start), run, limits)
        ensures At(Opened(w, start), run, |run|).row.cycles <= limits.maxRecoveryAttempts
      {
        OpenedInvariant(w, start);
        CapHolds(Opened(w, start), run, limits, |run|);
      }
    } else {
      FirstDecisionUnguarded(limits);
    }
  }
}
