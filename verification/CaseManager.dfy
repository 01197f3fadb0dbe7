/** The program's writers of case state, as the imperative code they are. */
module CaseManager {
  import opened Common
  import opened Transitions
  import opened CaseModel
  import opened CaseInvariants
  import opened Bounds

  datatype TransitionOutcome = APPLIED | VERSION_CONFLICT | ILLEGAL | CAPTURE_NOT_VERIFIED

  datatype TransitionResult = TransitionResult(
    outcome: TransitionOutcome, previousState: CaseState, newState: Option<CaseState>, version: int)

  function OutcomeOf(r: Refusal): TransitionOutcome {
    match r
    case VersionConflict => VERSION_CONFLICT
    case IllegalEdge => ILLEGAL
    case CaptureNotVerified => CAPTURE_NOT_VERIFIED
  }

  /** The rows of the tokens that are live. */
  function LiveRows(tokens: seq<Token>): set<nat> { set i: nat | i < |tokens| && Live(tokens[i]) }

  lemma OneMoreRow(tokens: seq<Token>, i: nat)
    requires i < |tokens|
    ensures LiveCount(tokens[..i + 1]) == LiveCount(tokens[..i]) + if Live(tokens[i]) then 1 else 0
    ensures |LiveRows(tokens[..i + 1])| == |LiveRows(tokens[..i])| + if Live(tokens[i]) then 1 else 0
  {
    assert tokens[..i + 1][..i] == tokens[..i];
    assert LiveRows(tokens[..i + 1]) == LiveRows(tokens[..i]) + if Live(tokens[i]) then {i} else {};
  }

  /** A case row held FOR UPDATE by the current transaction, with the rows that hang off it. */
  class RecoveryCase {
    var state: CaseState
    var version: int
    var executedActionCount: int
    var customerMessageCount: int
    var decisionCycleCount: int
    var lastOutboundAt: Option<Instant>
    var nextReviewAt: Option<Instant>
    const windowEndAt: Instant
    var terminalReason: Option<TerminalReason>
    var humanOwner: Option<UserId>
    var humanAssignedAt: Option<Instant>
    var auditSeq: int
    var log: seq<AuditRecord>
    var tokens: seq<Token>

    function File(): CaseFile reads this {
      CaseFile(
        CaseRow(state, version, executedActionCount, customerMessageCount, decisionCycleCount,
                lastOutboundAt, nextReviewAt, windowEndAt, terminalReason, humanOwner, humanAssignedAt,
                auditSeq),
        log, tokens)
    }

    /** Reads the committed rows under the lock. */
    constructor (f: CaseFile)
      ensures File() == f
    {
      state, version := f.row.state, f.row.version;
      executedActionCount, customerMessageCount := f.row.executed, f.row.messages;
      decisionCycleCount := f.row.cycles;
      lastOutboundAt, nextReviewAt, windowEndAt := f.row.lastOutboundAt, f.row.nextReviewAt, f.row.windowEndAt;
      terminalReason := f.row.terminalReason;
      humanOwner, humanAssignedAt := f.row.owner, f.row.assignedAt;
      auditSeq, log, tokens := f.row.auditSeq, f.log, f.tokens;
    }

    method WriteForCase(entry: AuditEntry)
      modifies this`auditSeq, this`log
      ensures File() == Append(old(File()), entry)
    {
      auditSeq := auditSeq + 1;
      log := log + [AuditRecord(auditSeq, entry)];
    }

    /**
      Ends every live token of the case, at that instant and for that reason, and says how many it ended. Tokens
      that had ended keep the instant and the reason they ended for.
    */
    method RevokeForCase(moment: Instant, reason: RevocationReason) returns (count: nat)
      modifies this`tokens
      ensures |tokens| == |old(tokens)| && NoneLive(tokens)
      ensures forall i :: 0 <= i < |tokens| ==>
        tokens[i] == if Live(old(tokens)[i])
                     then Token(old(tokens)[i].tokenId, old(tokens)[i].expiresAt, Some(moment), Some(reason))
                     else old(tokens)[i]
      ensures count == |LiveRows(old(tokens))|
      ensures tokens == RevokeLive(old(tokens), moment, reason) && count == LiveCount(old(tokens))
    {
      var before := tokens;
      count := 0;
      for i := 0 to |before|
        invariant |tokens| == |before|
        invariant forall k :: 0 <= k < i ==>
          tokens[k] == if Live(before[k])
                       then Token(before[k].tokenId, before[k].expiresAt, Some(moment), Some(reason)) else before[k]
        invariant forall k :: i <= k < |before| ==> tokens[k] == before[k]
        invariant count == LiveCount(before[..i]) == |LiveRows(before[..i])|
      {
        OneMoreRow(before, i);
        if Live(tokens[i]) {
          tokens := tokens[i := tokens[i].(revokedAt := Some(moment), revocation := Some(reason))];
          count := count + 1;
        }
      }
      assert before[..|before|] == before;
      assert tokens == RevokeLive(before, moment, reason);
    }

    /** The counter effects of an edge. They only ever add. */
    method CountUp(effects: CounterEffects, visible: bool, now: Instant)
      modifies this`executedActionCount, this`customerMessageCount, this`decisionCycleCount, this`lastOutboundAt
      ensures executedActionCount == old(executedActionCount) + effects.executedAction
      ensures customerMessageCount ==
        old(customerMessageCount) + if visible then effects.customerMessageIfVisible else 0
      ensures decisionCycleCount == old(decisionCycleCount) + effects.decisionCycle
      ensures lastOutboundAt == if effects.setsLastOutboundAt then Some(now) else old(lastOutboundAt)
    {
      executedActionCount := executedActionCount + effects.executedAction;
      if effects.customerMessageIfVisible > 0 && visible {
        customerMessageCount := customerMessageCount + effects.customerMessageIfVisible;
      }
      decisionCycleCount := decisionCycleCount + effects.decisionCycle;
      if effects.setsLastOutboundAt { lastOutboundAt := Some(now); }
    }

    /** Enters the target state; leaving PolicyCheck, by whatever edge, forgets the review instant. */
    method Enter(target: CaseState, reason: Option<TerminalReason>)
      modifies this`state, this`version, this`nextReviewAt, this`terminalReason
      ensures state == target && version == old(version) + 1
      ensures nextReviewAt == if old(state) == PolicyCheck then None else old(nextReviewAt)
      ensures terminalReason == if reason.Some? && IsTerminal(target) then reason else old(terminalReason)
    {
      if state == PolicyCheck { nextReviewAt := None; }
      state := target;
      version := version + 1;
      if reason.Some? && IsTerminal(target) { terminalReason := reason; }
    }

    method MoveColumns(effects: CounterEffects, a: Attempt, now: Instant)
      modifies this
      ensures File() == CaseFile(MovedBy(old(File()).row, effects, a, now), old(log), old(tokens))
    {
      CountUp(effects, a.action.Some? && IsCustomerVisible(a.action.value), now);
      Enter(a.target, a.terminalReason);
    }

    /** The only writer of the state column. Refusals leave the case as it was and are returned. */
    method ApplyLockedTransition(a: Attempt, now: Instant)
      returns (result: TransitionResult, rejection: Option<Rejection>)
      modifies this
      ensures rejection == Refused(old(File()).row, a)
      ensures rejection.Some? ==>
        File() == old(File())
        && result == TransitionResult(OutcomeOf(rejection.value.refusal), old(state), None, old(version))
      ensures rejection.None? ==>
        File() == Moved(old(File()), a, now)
        && result == TransitionResult(APPLIED, old(state), Some(a.target), old(version) + 1)
      ensures result.outcome == VERSION_CONFLICT <==> old(version) != a.expectedVersion
      ensures result.outcome == ILLEGAL <==> old(version) == a.expectedVersion && RuleFor(old(state), a.target).None?
      ensures result.outcome == CAPTURE_NOT_VERIFIED <==>
        old(version) == a.expectedVersion && RuleFor(old(state), a.target).Some?
        && RuleFor(old(state), a.target).value.requiresVerifiedCapture && !a.verifiedCapture
    {
      hide RuleFor, RevokeLive, LiveCount;
      var current := state;
      var rule := RuleFor(current, a.target);
      if version != a.expectedVersion {
        return TransitionResult(VERSION_CONFLICT, current, None, version),
               Some(Rejection(VersionConflict, current, a.target, a.reason, version));
      }
      if rule.None? {
        return TransitionResult(ILLEGAL, current, None, version),
               Some(Rejection(IllegalEdge, current, a.target, a.reason, version));
      }
      if rule.value.requiresVerifiedCapture && !a.verifiedCapture {
        return TransitionResult(CAPTURE_NOT_VERIFIED, current, None, version),
               Some(Rejection(CaptureNotVerified, current, a.target, CAPTURE_REFUSED, version));
      }
      MoveColumns(rule.value.effects, a, now);
      var revoked: nat := 0;
      if IsTerminal(a.target) { revoked := RevokeForCase(now, CaseTerminal); }
      WriteForCase(
        AuditEntry(StateTransition, a.actor, Some(current), Some(a.target), a.action, None, a.reason, revoked, now));
      return TransitionResult(APPLIED, current, Some(a.target), version), None;
    }

    /** Gives the customer a working token: the live one, or a new one in place of an expired one. */
    method MintFor(a: Attempt, now: Instant) returns (ok: bool)
      requires a.onSuccess.MintToken?
      modifies this
      ensures ok <==> Mint(old(File()), now, a.onSuccess, a.action).Some?
      ensures ok ==> File() == Mint(old(File()), now, a.onSuccess, a.action).value
    {
      if !a.onSuccess.signing { return false; }
      var existing := LiveToken(tokens);
      if existing.Some? && existing.value.expiresAt > now { return true; }
      var expiresAt := Min(now + a.onSuccess.lifetime, windowEndAt);
      if expiresAt <= now { return false; }
      if existing.Some? { var _ := RevokeForCase(now, ExpiredSuperseded); }
      if a.onSuccess.raced { return false; }
      tokens := tokens + [Token(a.onSuccess.tokenId, expiresAt, None, None)];
      WriteForCase(TokenIssued(a.onSuccess.tokenId, a.action, now));
      return true;
    }

    /** What the caller does on the locked row once the transition is applied; false means it gave up. */
    method RunOnSuccess(a: Attempt, now: Instant) returns (ok: bool)
      modifies this
      ensures ok <==> AfterSuccess(old(File()), a, now).Some?
      ensures ok ==> File() == AfterSuccess(old(File()), a, now).value
    {
      hide Mint;
      ok := true;
      match a.onSuccess {
        case Nothing =>
        case ScheduleReview(interval) => nextReviewAt := ReviewInstant(now, windowEndAt, interval);
        case MintToken(_, _, _, _) => ok := MintFor(a, now);
        case GiveUp => ok := false;
      }
      if !ok { return; }
      ghost var hooked := File();
      for k := 0 to |a.alongside|
        invariant File() == WithRecords(hooked, HookEntries(a, now)[..k])
      {
        WriteForCase(HookEntry(a.alongside[k], a, now));
        assert HookEntries(a, now)[..k + 1][..k] == HookEntries(a, now)[..k];
      }
      assert HookEntries(a, now)[..|a.alongside|] == HookEntries(a, now);
    }

    /** Records that move nothing, one after another. */
    method WriteNotes(notes: seq<Note>, now: Instant)
      modifies this
      ensures File() == WithRecords(old(File()), NoteEntries(notes, now))
    {
      ghost var entries := NoteEntries(notes, now);
      for k := 0 to |notes|
        invariant File() == WithRecords(old(File()), entries[..k])
      {
        var note := notes[k];
        WriteForCase(
          AuditEntry(OtherEvent(note.name), note.actor, note.previous, note.next, None, None, "", 0, now));
        assert entries[..k + 1][..k] == entries[..k];
      }
      assert entries[..|notes|] == entries;
    }

    /** Takes the case for a person; only a live, unowned case changes, with one record. */
    method TakeOwnership(user: UserId, now: Instant) returns (outcome: OwnershipOutcome, owner: Option<UserId>)
      modifies this
      ensures outcome == Assigned && old(humanOwner).None? ==>
        !IsTerminal(old(state)) && owner == Some(user)
        && File() == Append(old(File()).(row := old(File()).row.(owner := Some(user), assignedAt := Some(now))),
                            OwnerEntry(HumanOwnerAssigned, user, now))
      ensures !(outcome == Assigned && old(humanOwner).None?) ==> File() == old(File()) && owner == old(humanOwner)
      ensures outcome == CaseIsTerminal <==> IsTerminal(old(state))
      ensures outcome == AlreadyOwned <==>
        !IsTerminal(old(state)) && old(humanOwner).Some? && old(humanOwner).value != user
      ensures outcome in {Assigned, CaseIsTerminal, AlreadyOwned}
    {
      if IsTerminal(state) { return CaseIsTerminal, humanOwner; }
      if humanOwner.Some? {
        return if humanOwner.value == user then Assigned else AlreadyOwned, humanOwner;
      }
      humanOwner, humanAssignedAt := Some(user), Some(now);
      WriteForCase(AuditEntry(HumanOwnerAssigned, "merchant_user", None, None, None, Some(user), "", 0, now));
      return Assigned, humanOwner;
    }

    /** Gives the case back to automation, whoever held it. */
    method GiveBack(user: UserId, now: Instant) returns (outcome: OwnershipOutcome)
      modifies this
      ensures outcome == if old(humanOwner).Some? then Released else NotOwned
      ensures outcome == Released ==>
        File() == Append(old(File()).(row := old(File()).row.(owner := None, assignedAt := None)),
                         OwnerEntry(HumanOwnerReleased, user, now))
      ensures outcome == NotOwned ==> File() == old(File())
    {
      if humanOwner.None? { return NotOwned; }
      humanOwner, humanAssignedAt := None, None;
      WriteForCase(AuditEntry(HumanOwnerReleased, "merchant_user", None, None, None, Some(user), "", 0, now));
      return Released;
    }

    /**
      Disposes of the locked case of a promise just marked missed: it asks whether a bound is reached and makes
      one transition, or none. What commits is `DisposeMissed`, unless the schema refuses the rows.
    */
    method ApplyMissedDisposition(limits: Limits, now: Instant) returns (disposition: Disposition)
      requires Storable(File())
      modifies this
      ensures DisposeMissed(old(File()), limits, now) ==
        if Storable(File()) then (File(), Success(disposition)) else (old(File()), Raised)
    {
      hide RuleFor, Moved, Storable;
      var bound := BoundReached(File().row, limits, now);
      if bound == Some(WindowElapsed) { return HeldForWindowSweep; }
      var target := if bound.None? then DecisionPending else Stopped;
      var terminalReason: Option<TerminalReason> := None;
      if bound.Some? {
        terminalReason :=
          Some(if bound.value == DecisionCycleLimit then DecisionCycleLimitReached else MaxAttemptsReached);
      }
      var reason := if bound.None? then "promise missed; re-deciding" else "promise missed; " + BoundName(bound.value);
      var _, rejection := ApplyLockedTransition(
        Attempt(version, target, reason, PROMISE_ACTOR, Some(PromiseToPayFollowUp), terminalReason, false, Nothing, []),
        now);
      if rejection.Some? { return TransitionRefused; }
      return if bound.None? then ReturnedToDecision else StoppedAtBound;
    }
  }
}
