/** Promises to pay: the plan made of a promised date, the stored rows, and what may happen to them. */
module PromiseModel {
  import opened Common
  import opened Transitions
  import opened JobQueue
  import opened Oldest

  datatype PromiseStatus = Recorded | FollowUpScheduled | Kept | Missed | BeyondWindowEscalated | Voided

  datatype Promise = Promise(
    promiseDate: Instant,
    recordedAt: Instant,
    windowEnd: Instant,
    followUpAt: Option<Instant>,
    status: PromiseStatus,
    keptAt: Option<Instant>,
    missedAt: Option<Instant>,
    seconds: Option<int>,
    voidedBy: Option<CaseState>)

  datatype PromiseConfig = PromiseConfig(
    maxPromisesPerCase: int, minLeadTime: Instant, followUpOffset: Instant, safetyMargin: Instant)

  // ---- Planning ----

  datatype Plan = Plan(status: PromiseStatus, followUpAt: Option<Instant>, windowEnd: Instant, clamped: bool)

  const SCHEMA_MAX_PROMISES_PER_CASE := 1

  function EffectivePromiseLimit(cfg: PromiseConfig): int {
    Max(0, Min(cfg.maxPromisesPerCase, SCHEMA_MAX_PROMISES_PER_CASE))
  }

  predicate MeetsMinLeadTime(promised: Instant, submitted: Instant, cfg: PromiseConfig) {
    promised >= submitted + cfg.minLeadTime
  }

  /** Resolves a promised date to a status and a follow-up instant. The window end only passes through. */
  function PlanPromise(promised: Instant, submitted: Instant, windowEnd: Instant, cfg: PromiseConfig): Plan {
    var unclamped := promised + Max(cfg.followUpOffset, 0);
    if promised >= windowEnd then Plan(BeyondWindowEscalated, None, windowEnd, false)
    else
      var followUpAt := Min(unclamped, windowEnd - cfg.safetyMargin);
      if followUpAt < submitted then Plan(BeyondWindowEscalated, None, windowEnd, false)
      else Plan(Recorded, Some(followUpAt), windowEnd, followUpAt < unclamped)
  }

  /** For a date after its submission, escalation is about the window alone, and a follow-up is inside it. */
  lemma PlanMeaning(promised: Instant, submitted: Instant, windowEnd: Instant, cfg: PromiseConfig)
    requires promised > submitted
    ensures var plan := PlanPromise(promised, submitted, windowEnd, cfg);
      && (plan.status == BeyondWindowEscalated <==>
            promised >= windowEnd || windowEnd - cfg.safetyMargin < submitted)
      && (plan.status == BeyondWindowEscalated <==> plan.followUpAt.None?)
      && (plan.followUpAt.Some? ==>
            && plan.status == Recorded
            && submitted <= plan.followUpAt.value <= windowEnd - cfg.safetyMargin
            && (cfg.safetyMargin > 0 ==> plan.followUpAt.value < windowEnd)
            && (plan.clamped <==> promised + Max(cfg.followUpOffset, 0) > windowEnd - cfg.safetyMargin)
            && (plan.clamped ==> plan.followUpAt.value == windowEnd - cfg.safetyMargin)
            && (!plan.clamped ==> plan.followUpAt.value == promised + Max(cfg.followUpOffset, 0)))
  {}

  /** The CHECK constraints on a stored promise. */
  predicate PromiseChecksHold(p: Promise) {
    && (p.followUpAt.Some? ==> p.followUpAt.value < p.windowEnd)
    && (p.status == BeyondWindowEscalated ==> p.followUpAt.None?)
    && p.promiseDate > p.recordedAt
    && (p.status == PromiseStatus.Kept <==> p.keptAt.Some?)
  }

  function Fresh(promised: Instant, submitted: Instant, windowEnd: Instant, cfg: PromiseConfig): Promise {
    var plan := PlanPromise(promised, submitted, windowEnd, cfg);
    Promise(promised, submitted, plan.windowEnd, plan.followUpAt, plan.status, None, None, None, None)
  }

  /** The schema accepts a fresh promise exactly when its date is ahead and the clamp, or the date, is inside. */
  lemma FreshStorableIff(promised: Instant, submitted: Instant, windowEnd: Instant, cfg: PromiseConfig)
    ensures PromiseChecksHold(Fresh(promised, submitted, windowEnd, cfg)) <==>
      && promised > submitted
      && (|| cfg.safetyMargin > 0 || promised >= windowEnd
          || promised + Max(cfg.followUpOffset, 0) < windowEnd || windowEnd - cfg.safetyMargin < submitted)
  {}

  datatype DateRefusal = DateNotInFuture | BelowMinLeadTime

  /** The two date guards in front of a submission, in the order they are checked. */
  function DateRefused(promised: Instant, submitted: Instant, cfg: PromiseConfig): Option<DateRefusal> {
    if promised <= submitted then Some(DateNotInFuture)
    else if !MeetsMinLeadTime(promised, submitted, cfg) then Some(BelowMinLeadTime)
    else None
  }

  /** A date not after its submission is refused as such first; after that the lead time decides. */
  lemma DateRefusedMeaning(promised: Instant, submitted: Instant, cfg: PromiseConfig)
    ensures DateRefused(promised, submitted, cfg) == Some(DateNotInFuture) <==> promised <= submitted
    ensures DateRefused(promised, submitted, cfg) == Some(BelowMinLeadTime) <==>
      submitted < promised < submitted + cfg.minLeadTime
  {}

  /** With the margin configuration insists on, no date the guards let through can offend the schema. */
  lemma AcceptedDatesAreStorable(promised: Instant, submitted: Instant, windowEnd: Instant, cfg: PromiseConfig)
    requires cfg.safetyMargin > 0 && DateRefused(promised, submitted, cfg).None?
    ensures PromiseChecksHold(Fresh(promised, submitted, windowEnd, cfg))
  {
    FreshStorableIff(promised, submitted, windowEnd, cfg);
  }

  /** The lead-time guard alone would keep past dates out exactly when the lead time is positive. */
  lemma LeadTimeSubsumesIff(cfg: PromiseConfig)
    ensures (forall promised, submitted :: MeetsMinLeadTime(promised, submitted, cfg) ==> promised > submitted)
        <==> cfg.minLeadTime > 0
  {
    if cfg.minLeadTime <= 0 { assert MeetsMinLeadTime(0, 0, cfg); }
  }

  /** Whether the follow-up of a promise may be chosen: its status says so, or its instant has come. */
  predicate FollowUpReached(p: Promise, now: Instant) {
    if p.status == FollowUpScheduled then true
    else if p.status != Recorded || p.followUpAt.None? then false
    else now >= p.followUpAt.value
  }

  // ---- The stored rows and the jobs they cause ----

  datatype Book = Book(promises: map<CaseId, Promise>, jobs: seq<Job>)

  const PENDING := {Recorded, FollowUpScheduled}

  function EscalationJob(id: CaseId): Job {
    Job(PROMISE_ESCALATION_KIND, Some(CaseKey(PROMISE_ESCALATION_KIND, id)), Some(id), Pending)
  }

  /** An escalation's job and its key, spelled out. */
  lemma EscalationKeyText(jobs: seq<Job>, id: CaseId)
    ensures EscalationJob(id) == Job("promise_escalation", Some("promise_escalation:" + id), Some(id), Pending)
    ensures NonePending(jobs, "promise_escalation:" + id) ==>
      Enqueue(jobs, EscalationJob(id)) == jobs + [EscalationJob(id)]
  {
    assert CaseKey(PROMISE_ESCALATION_KIND, id) == "promise_escalation:" + id;
  }

  datatype Submission = Submission(id: CaseId, promised: Instant, submitted: Instant, windowEnd: Instant)

  function FreshFor(s: Submission, cfg: PromiseConfig): Promise {
    Fresh(s.promised, s.submitted, s.windowEnd, cfg)
  }

  /** Records a promise if the case may hold one and the schema takes it, queueing the escalation with it. */
  function Submit(b: Book, s: Submission, cfg: PromiseConfig): Book {
    var p := FreshFor(s, cfg);
    if s.id in b.promises || EffectivePromiseLimit(cfg) == 0 || !PromiseChecksHold(p) then b
    else
      Book(b.promises[s.id := p],
           if p.status == BeyondWindowEscalated then Enqueue(b.jobs, EscalationJob(s.id)) else b.jobs)
  }

  /** Moves a case's promise out of a status it is expected to be in; otherwise nothing. */
  function Resolve(b: Book, id: CaseId, expected: set<PromiseStatus>, next: Promise): Book {
    if id in b.promises && b.promises[id].status in expected then b.(promises := b.promises[id := next]) else b
  }

  /** Whole seconds, truncated toward zero whichever sign the interval has. */
  function WholeSeconds(micros: int): int {
    if micros >= 0 then micros / 1_000_000 else -(-micros / 1_000_000)
  }

  lemma WholeSecondsTruncate(micros: int)
    ensures var s := WholeSeconds(micros);
      && (micros >= 0 ==> 0 <= s && s * 1_000_000 <= micros < (s + 1) * 1_000_000)
      && (micros <= 0 ==> s <= 0 && (s - 1) * 1_000_000 < micros <= s * 1_000_000)
  {}

  function KeptAs(p: Promise, paidAt: Instant): Promise {
    p.(status := PromiseStatus.Kept, keptAt := Some(paidAt), seconds := Some(WholeSeconds(paidAt - p.promiseDate)))
  }

  function MissedAs(p: Promise, moment: Instant): Promise {
    p.(status := Missed, missedAt := Some(moment))
  }

  function ScheduledAs(p: Promise): Promise { p.(status := FollowUpScheduled) }

  function VoidedAs(p: Promise, state: CaseState): Promise { p.(status := Voided, voidedBy := Some(state)) }

  function Keep(b: Book, id: CaseId, paidAt: Instant): Book {
    if id !in b.promises then b
    else Resolve(b, id, PENDING + {BeyondWindowEscalated}, KeptAs(b.promises[id], paidAt))
  }

  /** Only a confirmed follow-up lets a promise be missed. */
  function Miss(b: Book, id: CaseId, confirmed: bool, moment: Instant): Book {
    if id !in b.promises || !confirmed then b
    else Resolve(b, id, PENDING, MissedAs(b.promises[id], moment))
  }

  function MarkScheduled(b: Book, id: CaseId): Book {
    if id !in b.promises then b else Resolve(b, id, {Recorded}, ScheduledAs(b.promises[id]))
  }

  predicate Voids(state: CaseState) { IsTerminal(state) && state != Recovered }

  function VoidFor(b: Book, id: CaseId, state: CaseState): Book {
    if id !in b.promises || !Voids(state) then b
    else Resolve(b, id, PENDING, VoidedAs(b.promises[id], state))
  }

  // ---- The sweep ----

  predicate Due(p: Promise, now: Instant) {
    p.status in PENDING && p.followUpAt.Some? && p.followUpAt.value <= now
  }

  function DuePromises(b: Book, now: Instant): set<CaseId> {
    set id | id in b.promises && Due(b.promises[id], now)
  }

  function FollowUps(b: Book): map<CaseId, int> {
    map id | id in b.promises && b.promises[id].followUpAt.Some? :: b.promises[id].followUpAt.value
  }

  predicate IsReviewState(s: CaseState) { s == PolicyCheck || s == WaitingForOutcome }

  datatype Branch = CaseGone | LeftRecovered | VoidIt | LeftWindowClosed | ScheduleIt | AlreadyScheduled

  /** Which branch a claimed row takes, from the row and the state its case is read in. */
  function BranchFor(p: Promise, state: Option<CaseState>, now: Instant): Branch {
    if state.None? then CaseGone
    else if IsTerminal(state.value) then (if state.value == Recovered then LeftRecovered else VoidIt)
    else if p.windowEnd <= now then LeftWindowClosed
    else if p.status == Recorded then ScheduleIt
    else AlreadyScheduled
  }

  predicate AsksForReview(branch: Branch, state: Option<CaseState>) {
    branch in {ScheduleIt, AlreadyScheduled} && state.Some? && IsReviewState(state.value)
  }

  function BranchResult(p: Promise, branch: Branch, state: Option<CaseState>): Promise
    requires branch == VoidIt ==> state.Some?
  {
    match branch
    case VoidIt => VoidedAs(p, state.value)
    case ScheduleIt => ScheduledAs(p)
    case _ => p
  }

  /** The state each claimed row's case is read in when the pass reaches that row. */
  type StatesRead = map<CaseId, CaseState>

  function ReadOf(seen: StatesRead, id: CaseId): Option<CaseState> { if id in seen then Some(seen[id]) else None }

  function SweepRow(b: Book, id: CaseId, now: Instant, seen: StatesRead): Book
    requires id in b.promises
  {
    var state := ReadOf(seen, id);
    var branch := BranchFor(b.promises[id], state, now);
    Book(b.promises[id := BranchResult(b.promises[id], branch, state)],
         if AsksForReview(branch, state) then Enqueue(b.jobs, ReviewJob(id)) else b.jobs)
  }

  /** A pass over the rows it claimed, in order. */
  function SweepRows(b: Book, claimed: seq<CaseId>, now: Instant, seen: StatesRead): Book {
    if claimed == [] then b
    else
      var before := SweepRows(b, claimed[..|claimed| - 1], now, seen);
      var id := claimed[|claimed| - 1];
      if id in before.promises then SweepRow(before, id, now, seen) else before
  }

  /** Rows a pass may claim: due, each once. Which of them, and in what order, is up to the limit and the locks. */
  predicate Claimable(b: Book, claimed: seq<CaseId>, now: Instant) {
    Distinct(claimed) && forall id :: id in claimed ==> id in DuePromises(b, now)
  }

  // ---- Everything that happens to the rows ----

  datatype PromiseEvent =
    | Submitted(submission: Submission, cfg: PromiseConfig)
    | PaidRead(id: CaseId, paidAt: Instant)
    | UnpaidRead(id: CaseId, confirmed: bool, moment: Instant)
    | FollowUpConfirmed(id: CaseId)
    | CaseEnded(id: CaseId, state: CaseState)
    | SweepPass(claimed: seq<CaseId>, now: Instant, seen: StatesRead)
    | QueueWork(event: QueueEvent)

  /** Only a recorded promise queues an escalation, and a key names its kind and its case. */
  predicate Orderly(e: PromiseEvent) {
    e.QueueWork? && e.event.Enqueued? ==> !IsEscalation(e.event.job)
  }

  predicate IsEscalation(j: Job) {
    j.kind == PROMISE_ESCALATION_KIND
    || (j.dedupeKey.Some? && PROMISE_ESCALATION_KIND + ":" <= j.dedupeKey.value)
  }

  function BookStep(b: Book, e: PromiseEvent): Book {
    match e
    case Submitted(s, cfg) => Submit(b, s, cfg)
    case PaidRead(id, paidAt) => Keep(b, id, paidAt)
    case UnpaidRead(id, confirmed, moment) => Miss(b, id, confirmed, moment)
    case FollowUpConfirmed(id) => MarkScheduled(b, id)
    case CaseEnded(id, state) => VoidFor(b, id, state)
    case SweepPass(claimed, now, seen) => if Claimable(b, claimed, now) then SweepRows(b, claimed, now, seen) else b
    case QueueWork(event) => b.(jobs := QueueStep(b.jobs, event))
  }

  /** The rows after the first k events of a run. */
  function BookAt(b: Book, run: seq<PromiseEvent>, k: nat): Book
    requires k <= |run|
  {
    if k == 0 then b else BookStep(BookAt(b, run, k - 1), run[k - 1])
  }
}
