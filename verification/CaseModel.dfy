/** One recovery case as its committed rows: the case row, its audit log and its access tokens. */
module CaseModel {
  import opened Common
  import opened Transitions

  type UserId = nat

  datatype TerminalReason =
    | RecoveredVerified | RecoveryWindowElapsed | MaxAttemptsReached | DecisionCycleLimitReached
    | CustomerOptedOut | AlreadyPaid | FraudOrRiskFlag | PaymentStateUnverifiable
    | ExecutionResultUnverifiable | PolicyBlocked | HumanOwnership | CommunicationFailed
    | CustomerDisputedCharge | CustomerCancelledOrder | CustomerRequestedPartialArrangement
    | PromiseBeyondRecoveryWindow

  datatype CaseRow = CaseRow(
    state: CaseState,
    version: int,
    executed: int,
    messages: int,
    cycles: int,
    lastOutboundAt: Option<Instant>,
    nextReviewAt: Option<Instant>,
    windowEndAt: Instant,
    terminalReason: Option<TerminalReason>,
    owner: Option<UserId>,
    assignedAt: Option<Instant>,
    auditSeq: int)

  datatype EventType =
    | CaseDetected
    | StateTransition
    | VersionConflictRecorded
    | IllegalTransitionRecorded
    | HumanOwnerAssigned
    | HumanOwnerReleased
    | OtherEvent(name: string)

  /** What a writer wants recorded; the sequence number is allocated when it is appended. */
  datatype AuditEntry = AuditEntry(
    eventType: EventType,
    actor: string,
    previousState: Option<CaseState>,
    newState: Option<CaseState>,
    action: Option<CandidateAction>,
    user: Option<UserId>,
    reason: string,
    tokensRevoked: nat,
    occurredAt: Instant)

  datatype AuditRecord = AuditRecord(seqNo: int, entry: AuditEntry)

  datatype RevocationReason = CaseTerminal | ContactSuppressed | ExpiredSuperseded | KeyRetired

  datatype Token = Token(
    tokenId: string, expiresAt: Instant, revokedAt: Option<Instant>, revocation: Option<RevocationReason>)

  predicate Live(t: Token) { t.revokedAt.None? }

  datatype CaseFile = CaseFile(row: CaseRow, log: seq<AuditRecord>, tokens: seq<Token>)

  // ---- The schema's own rules ----

  const COUNTER_CEILING := 10
  const AUDIT_CEILING := 10_000

  /** The CHECK constraints on a case row. */
  predicate ChecksHold(row: CaseRow) {
    && 0 <= row.executed <= COUNTER_CEILING
    && 0 <= row.messages <= row.executed
    && 0 <= row.cycles <= COUNTER_CEILING
    && 0 <= row.auditSeq <= AUDIT_CEILING
    && (row.nextReviewAt.Some? ==> row.nextReviewAt.value <= row.windowEndAt)
  }

  /** The partial unique index: at most one unrevoked token per case. */
  predicate OneLiveToken(tokens: seq<Token>) {
    forall i, j :: 0 <= i < j < |tokens| ==> !(Live(tokens[i]) && Live(tokens[j]))
  }

  predicate Storable(f: CaseFile) { ChecksHold(f.row) && OneLiveToken(f.tokens) }

  // ---- Audit and tokens ----

  /** Allocates the next sequence number on the case row and appends the record that carries it. */
  function Append(f: CaseFile, entry: AuditEntry): CaseFile {
    var next := f.row.auditSeq + 1;
    f.(row := f.row.(auditSeq := next), log := f.log + [AuditRecord(next, entry)])
  }

  function LiveCount(tokens: seq<Token>): nat {
    if tokens == [] then 0
    else LiveCount(tokens[..|tokens| - 1]) + if Live(tokens[|tokens| - 1]) then 1 else 0
  }

  function Revoked(t: Token, moment: Instant, reason: RevocationReason): Token {
    if Live(t) then t.(revokedAt := Some(moment), revocation := Some(reason)) else t
  }

  /** Ends every live token; tokens already revoked keep the reason they were revoked for. */
  function RevokeLive(tokens: seq<Token>, moment: Instant, reason: RevocationReason): seq<Token> {
    seq(|tokens|, i requires 0 <= i < |tokens| => Revoked(tokens[i], moment, reason))
  }

  // ---- One transition ----

  /**
    What runs in the success transaction after the state is written. A mint finds the signing secret or not,
    and may lose the insert to another session; any step can give the whole transaction up.
  */
  datatype OnSuccess =
    | Nothing
    | ScheduleReview(interval: Instant)
    | MintToken(tokenId: string, lifetime: Instant, signing: bool, raced: bool)
    | GiveUp

  datatype Attempt = Attempt(
    expectedVersion: int,
    target: CaseState,
    reason: string,
    actor: string,
    action: Option<CandidateAction>,
    terminalReason: Option<TerminalReason>,
    verifiedCapture: bool,
    onSuccess: OnSuccess,
    alongside: seq<string>)

  /** Only the policy handler schedules reviews and only the execution engine mints tokens. */
  predicate Fits(a: Attempt) {
    && (a.onSuccess.ScheduleReview? ==> a.target == PolicyCheck)
    && (a.onSuccess.MintToken? ==> a.target == Executing)
  }

  datatype Refusal = VersionConflict | IllegalEdge | CaptureNotVerified

  datatype Rejection = Rejection(
    refusal: Refusal, current: CaseState, target: CaseState, reason: string, observedVersion: int)

  const CAPTURE_REFUSED := "reconciliation to RECOVERED requires a verified captured read"

  /** The three refusals, in the order they are checked; None means the transition goes ahead. */
  function Refused(row: CaseRow, a: Attempt): Option<Rejection> {
    var rule := RuleFor(row.state, a.target);
    if row.version != a.expectedVersion then
      Some(Rejection(VersionConflict, row.state, a.target, a.reason, row.version))
    else if rule.None? then
      Some(Rejection(IllegalEdge, row.state, a.target, a.reason, row.version))
    else if rule.value.requiresVerifiedCapture && !a.verifiedCapture then
      Some(Rejection(CaptureNotVerified, row.state, a.target, CAPTURE_REFUSED, row.version))
    else None
  }

  function MovedBy(row: CaseRow, effects: CounterEffects, a: Attempt, now: Instant): CaseRow {
    var visible := a.action.Some? && IsCustomerVisible(a.action.value);
    row.(
      state := a.target,
      version := row.version + 1,
      executed := row.executed + effects.executedAction,
      messages := row.messages + if visible then effects.customerMessageIfVisible else 0,
      cycles := row.cycles + effects.decisionCycle,
      lastOutboundAt := if effects.setsLastOutboundAt then Some(now) else row.lastOutboundAt,
      nextReviewAt := if row.state == PolicyCheck then None else row.nextReviewAt,
      terminalReason := if a.terminalReason.Some? && IsTerminal(a.target) then a.terminalReason
                        else row.terminalReason)
  }

  function MovedRow(row: CaseRow, a: Attempt, now: Instant): CaseRow
    requires RuleFor(row.state, a.target).Some?
  {
    MovedBy(row, RuleFor(row.state, a.target).value.effects, a, now)
  }

  /** The state change with everything that shares its transaction, before the success hook runs. */
  function Moved(f: CaseFile, a: Attempt, now: Instant): CaseFile
    requires RuleFor(f.row.state, a.target).Some?
  {
    var ends := IsTerminal(a.target);
    Append(
      CaseFile(MovedRow(f.row, a, now), f.log,
               if ends then RevokeLive(f.tokens, now, CaseTerminal) else f.tokens),
      AuditEntry(StateTransition, a.actor, Some(f.row.state), Some(a.target), a.action, None, a.reason,
                 if ends then LiveCount(f.tokens) else 0, now))
  }

  // ---- Success hooks ----

  /** When a case that chose restraint is looked at again; None once its window has closed. */
  function ReviewInstant(moment: Instant, windowEndAt: Instant, interval: Instant): Option<Instant> {
    var reviewAt := Min(moment + interval, windowEndAt);
    if reviewAt > moment then Some(reviewAt) else None
  }

  /** The case's one unrevoked token, if it has one. */
  function LiveToken(tokens: seq<Token>): Option<Token> {
    if tokens == [] then None
    else if Live(tokens[|tokens| - 1]) then Some(tokens[|tokens| - 1])
    else LiveToken(tokens[..|tokens| - 1])
  }

  function TokenIssued(tokenId: string, action: Option<CandidateAction>, now: Instant): AuditEntry {
    AuditEntry(
      OtherEvent("CUSTOMER_TOKEN_ISSUED"), "customer_response_service", None, None, action, None, tokenId, 0, now)
  }

  /** Reuses an unexpired live token, or supersedes an expired one and issues a new one; None when it cannot. */
  function Mint(f: CaseFile, now: Instant, m: OnSuccess, action: Option<CandidateAction>): Option<CaseFile>
    requires m.MintToken?
  {
    var existing := LiveToken(f.tokens);
    var expiresAt := Min(now + m.lifetime, f.row.windowEndAt);
    if !m.signing then None
    else if existing.Some? && existing.value.expiresAt > now then Some(f)
    else if expiresAt <= now || m.raced then None
    else
      var kept := if existing.Some? then RevokeLive(f.tokens, now, ExpiredSuperseded) else f.tokens;
      Some(Append(f.(tokens := kept + [Token(m.tokenId, expiresAt, None, None)]),
                  TokenIssued(m.tokenId, action, now)))
  }

  /** Further records, one after another. */
  function WithRecords(f: CaseFile, entries: seq<AuditEntry>): CaseFile {
    if entries == [] then f
    else Append(WithRecords(f, entries[..|entries| - 1]), entries[|entries| - 1])
  }

  function HookEntry(name: string, a: Attempt, now: Instant): AuditEntry {
    AuditEntry(OtherEvent(name), a.actor, None, Some(a.target), a.action, None, "", 0, now)
  }

  /** What a success hook writes in the transition's own transaction. */
  function HookEntries(a: Attempt, now: Instant): seq<AuditEntry> {
    seq(|a.alongside|, i requires 0 <= i < |a.alongside| => HookEntry(a.alongside[i], a, now))
  }

  function Hooked(f: CaseFile, a: Attempt, now: Instant): Option<CaseFile> {
    match a.onSuccess
    case Nothing => Some(f)
    case ScheduleReview(interval) =>
      Some(f.(row := f.row.(nextReviewAt := ReviewInstant(now, f.row.windowEndAt, interval))))
    case MintToken(_, _, _, _) => Mint(f, now, a.onSuccess, a.action)
    case GiveUp => None
  }

  function AfterSuccess(f: CaseFile, a: Attempt, now: Instant): Option<CaseFile> {
    var hooked := Hooked(f, a, now);
    if hooked.None? then None else Some(WithRecords(hooked.value, HookEntries(a, now)))
  }

  // ---- One transaction ----

  datatype Verdict = Applied | Rejected(rejection: Rejection) | RolledBack

  /** The attempt as a transaction: it commits whole, is refused, or raises and leaves nothing. */
  function Transact(f: CaseFile, a: Attempt, now: Instant): (CaseFile, Verdict) {
    var refusal := Refused(f.row, a);
    if refusal.Some? then (f, Rejected(refusal.value))
    else
      var done := AfterSuccess(Moved(f, a, now), a, now);
      if done.Some? && Storable(done.value) then (done.value, Applied) else (f, RolledBack)
  }

  /** A transaction whose only effect is one more record on the case. */
  function Recorded(f: CaseFile, changed: CaseFile, entry: AuditEntry): CaseFile {
    var g := Append(changed, entry);
    if Storable(g) then g else f
  }

  function RejectionEntry(r: Rejection, actor: string, now: Instant): AuditEntry {
    AuditEntry(
      if r.refusal.VersionConflict? then VersionConflictRecorded else IllegalTransitionRecorded,
      actor, Some(r.current), Some(r.target), None, None, r.reason, 0, now)
  }

  datatype OwnershipOutcome = Assigned | Released | AlreadyOwned | NotOwned | CaseIsTerminal | CaseNotFound

  function OwnerEntry(eventType: EventType, user: UserId, now: Instant): AuditEntry {
    AuditEntry(eventType, "merchant_user", None, None, None, Some(user), "", 0, now)
  }

  function AssignOwner(f: CaseFile, user: UserId, now: Instant): CaseFile {
    if IsTerminal(f.row.state) || f.row.owner.Some? then f
    else
      Recorded(f, f.(row := f.row.(owner := Some(user), assignedAt := Some(now))),
               OwnerEntry(HumanOwnerAssigned, user, now))
  }

  function ReleaseOwner(f: CaseFile, user: UserId, now: Instant): CaseFile {
    if f.row.owner.None? then f
    else
      Recorded(f, f.(row := f.row.(owner := None, assignedAt := None)),
               OwnerEntry(HumanOwnerReleased, user, now))
  }

  // ---- Everything that can happen to a case ----

  /** One committed (or rolled back) transaction on a case, by whichever component opened it. */
  datatype Event =
    | Transition(attempt: Attempt)
    | RecordRejection(rejection: Rejection, actor: string)
    | Assign(user: UserId)
    | Release(user: UserId)
    | WriteRecords(notes: seq<Note>)
    | SuppressContact

  /** A record that moves nothing: what it is called, who writes it, and the states it names. */
  datatype Note = Note(name: string, actor: string, previous: Option<CaseState>, next: Option<CaseState>)

  function NoteEntries(notes: seq<Note>, now: Instant): seq<AuditEntry> {
    seq(|notes|, i requires 0 <= i < |notes| =>
      AuditEntry(OtherEvent(notes[i].name), notes[i].actor, notes[i].previous, notes[i].next, None, None, "", 0, now))
  }

  datatype Moment = Moment(now: Instant, event: Event)

  predicate WellFormed(m: Moment) { m.event.Transition? ==> Fits(m.event.attempt) }

  function Step(f: CaseFile, m: Moment): CaseFile {
    match m.event
    case Transition(a) => Transact(f, a, m.now).0
    case RecordRejection(r, actor) => Recorded(f, f, RejectionEntry(r, actor, m.now))
    case Assign(user) => AssignOwner(f, user, m.now)
    case Release(user) => ReleaseOwner(f, user, m.now)
    case WriteRecords(notes) =>
      var g := WithRecords(f, NoteEntries(notes, m.now));
      if Storable(g) then g else f
    case SuppressContact => f.(tokens := RevokeLive(f.tokens, m.now, ContactSuppressed))
  }

  /** The case as detection opens it, with the record of its opening. */
  function Opened(windowEndAt: Instant, now: Instant): CaseFile {
    Append(
      CaseFile(CaseRow(Detected, 1, 0, 0, 0, None, None, windowEndAt, None, None, None, 0), [], []),
      AuditEntry(CaseDetected, "detection_engine", None, Some(Detected), None, None, "", 0, now))
  }

  /** The case after the first k moments of a run. */
  function At(f: CaseFile, run: seq<Moment>, k: nat): CaseFile
    requires k <= |run|
  {
    if k == 0 then f else Step(At(f, run, k - 1), run[k - 1])
  }
}
