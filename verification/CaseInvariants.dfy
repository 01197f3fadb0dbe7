/** What every committed transaction keeps true of a case, whoever opened it and in whatever order. */
module CaseInvariants {
  import opened Common
  import opened Transitions
  import opened CaseModel

  // ---- The columns ----

  /** A case past diagnosis has spent at least one decision cycle, and no case before that has. */
  predicate CyclesMatchState(row: CaseRow) {
    && row.state != New
    && (!IsTerminal(row.state) ==> (row.cycles == 0 <==> Rank(row.state) <= 2))
  }

  /** Each execution was preceded by an entry into DecisionPending that it alone uses up. */
  predicate ExecutionsWithinCycles(row: CaseRow) {
    row.executed <=
      row.cycles - if row.state in {DecisionPending, PolicyCheck, ActionScheduled} then 1 else 0
  }

  /** The version counts transitions, and transitions are bounded by rank gained and cycles spent. */
  predicate VersionWithinBound(row: CaseRow) {
    1 <= row.version <= Rank(row.state) + 5 * Max(0, row.cycles - 1)
  }

  predicate ColumnsAgree(row: CaseRow) {
    && ChecksHold(row)
    && CyclesMatchState(row)
    && ExecutionsWithinCycles(row)
    && VersionWithinBound(row)
    && (row.nextReviewAt.Some? ==> row.state == PolicyCheck)
    && (row.terminalReason.Some? ==> IsTerminal(row.state))
    && (row.owner.Some? <==> row.assignedAt.Some?)
  }

  // ---- The tokens ----

  predicate NoneLive(tokens: seq<Token>) { forall t :: t in tokens ==> !Live(t) }

  predicate ExpireWithin(tokens: seq<Token>, windowEndAt: Instant) {
    forall t :: t in tokens ==> t.expiresAt <= windowEndAt
  }

  predicate TokensAgree(f: CaseFile) {
    && OneLiveToken(f.tokens)
    && (IsTerminal(f.row.state) ==> NoneLive(f.tokens))
    && ExpireWithin(f.tokens, f.row.windowEndAt)
  }

  // ---- The audit log as the source of the row ----

  /** What the log claims to determine about a case. */
  datatype Projection = Projection(
    state: CaseState, version: int, executed: int, messages: int, cycles: int, owner: Option<UserId>)

  function Project(row: CaseRow): Projection {
    Projection(row.state, row.version, row.executed, row.messages, row.cycles, row.owner)
  }

  const OPENING := Projection(Detected, 1, 0, 0, 0, None)

  /** Reads one record: transitions move the state and counters, ownership records the owner, others nothing. */
  function Read(p: Projection, e: AuditEntry): Projection {
    match e.eventType
    case StateTransition =>
      if e.previousState.None? || e.newState.None? || RuleFor(e.previousState.value, e.newState.value).None? then p
      else
        var effects := RuleFor(e.previousState.value, e.newState.value).value.effects;
        var visible := e.action.Some? && IsCustomerVisible(e.action.value);
        p.(state := e.newState.value,
           version := p.version + 1,
           executed := p.executed + effects.executedAction,
           messages := p.messages + if visible then effects.customerMessageIfVisible else 0,
           cycles := p.cycles + effects.decisionCycle)
    case HumanOwnerAssigned => p.(owner := e.user)
    case HumanOwnerReleased => p.(owner := None)
    case _ => p
  }

  function Replay(log: seq<AuditRecord>): Projection {
    if log == [] then OPENING else Read(Replay(log[..|log| - 1]), log[|log| - 1].entry)
  }

  /** Sequence numbers 1..auditSeq, each exactly once, in the order the records were appended. */
  predicate GapFree(f: CaseFile) {
    |f.log| == f.row.auditSeq && forall i :: 0 <= i < |f.log| ==> f.log[i].seqNo == i + 1
  }

  /** A transition record starts from the state the log before it leads to, and takes a legal edge. */
  ghost predicate Coherent(log: seq<AuditRecord>) {
    forall i :: 0 <= i < |log| && log[i].entry.eventType == StateTransition ==>
      && log[i].entry.previousState == Some(Replay(log[..i]).state)
      && log[i].entry.newState.Some?
      && RuleFor(log[i].entry.previousState.value, log[i].entry.newState.value).Some?
  }

  ghost predicate LogAgrees(f: CaseFile) {
    && GapFree(f)
    && Replay(f.log) == Project(f.row)
    && Coherent(f.log)
  }

  ghost predicate Invariant(f: CaseFile) {
    ColumnsAgree(f.row) && TokensAgree(f) && LogAgrees(f)
  }

  lemma StorableByInvariant(f: CaseFile)
    requires Invariant(f)
    ensures Storable(f)
  {}

  // ---- Tokens: facts about revoking, counting and minting ----

  lemma {:induction false} CountsLive(tokens: seq<Token>)
    ensures LiveCount(tokens) == 0 <==> NoneLive(tokens)
    ensures LiveToken(tokens).None? <==> NoneLive(tokens)
    ensures OneLiveToken(tokens) <==> LiveCount(tokens) <= 1
    ensures LiveToken(tokens).Some? ==> LiveToken(tokens).value in tokens && Live(LiveToken(tokens).value)
  {
    if tokens != [] {
      var n := |tokens| - 1;
      var shorter := tokens[..n];
      CountsLive(shorter);
      assert tokens == shorter + [tokens[n]];
      assert NoneLive(tokens) <==> NoneLive(shorter) && !Live(tokens[n]);
      if OneLiveToken(shorter) && !NoneLive(shorter) && Live(tokens[n]) {
        var t :| t in shorter && Live(t);
        var i :| 0 <= i < n && tokens[i] == t;
        assert !OneLiveToken(tokens);
      }
      if OneLiveToken(tokens) { assert OneLiveToken(shorter); }
      if OneLiveToken(shorter) && (NoneLive(shorter) || !Live(tokens[n])) {
        forall i, j | 0 <= i < j < |tokens| ensures !(Live(tokens[i]) && Live(tokens[j])) {
          if j < n { assert shorter[i] == tokens[i] && shorter[j] == tokens[j]; }
          else { assert tokens[i] in shorter; }
        }
      }
    }
  }

  /** Revoking ends exactly the live tokens, at that instant and for that reason, and leaves the others alone. */
  lemma RevokingEnds(tokens: seq<Token>, moment: Instant, reason: RevocationReason)
    ensures forall i :: 0 <= i < |tokens| && Live(tokens[i]) ==>
      RevokeLive(tokens, moment, reason)[i]
        == Token(tokens[i].tokenId, tokens[i].expiresAt, Some(moment), Some(reason))
    ensures forall w :: ExpireWithin(tokens, w) ==> ExpireWithin(RevokeLive(tokens, moment, reason), w)
    ensures NoneLive(RevokeLive(tokens, moment, reason)) && OneLiveToken(RevokeLive(tokens, moment, reason))
    ensures forall i :: 0 <= i < |tokens| && !Live(tokens[i]) ==> RevokeLive(tokens, moment, reason)[i] == tokens[i]
    ensures NoneLive(tokens) ==> RevokeLive(tokens, moment, reason) == tokens
  {}

  /**
    A mint, column by column. It gives up without a signing secret; a live token that has not expired is used as it
    is; otherwise a new one ends with its lifetime or with the window, whichever is first, and takes the place of
    the expired ones, unless the window is over or another session was faster.
  */
  lemma MintMeaning(f: CaseFile, now: Instant, hook: OnSuccess, action: Option<CandidateAction>)
    requires OneLiveToken(f.tokens) && hook.MintToken?
    ensures var usable := exists t :: t in f.tokens && t.revokedAt.None? && t.expiresAt > now;
      && (Mint(f, now, hook, action).None? <==>
            !hook.signing || (!usable && (f.row.windowEndAt <= now || hook.lifetime <= 0 || hook.raced)))
      && (Mint(f, now, hook, action).Some? && usable ==> Mint(f, now, hook, action).value == f)
      && (Mint(f, now, hook, action).Some? && !usable ==> NewlyIssued(f, Mint(f, now, hook, action).value, now, hook))
  {
    CountsLive(f.tokens);
    OnlyLive(f.tokens);
    hide LiveToken, RevokeLive, NewlyIssued, OneLiveToken, LiveCount;
    var existing := LiveToken(f.tokens);
    if existing.Some? && existing.value.expiresAt > now {
      assert existing.value in f.tokens && existing.value.revokedAt.None?;
    } else if Mint(f, now, hook, action).Some? {
      NewTokenMeaning(f, now, hook, action);
    }
  }

  lemma NewTokenMeaning(f: CaseFile, now: Instant, hook: OnSuccess, action: Option<CandidateAction>)
    requires hook.MintToken? && Mint(f, now, hook, action).Some?
    requires LiveToken(f.tokens).Some? ==> LiveToken(f.tokens).value.expiresAt <= now
    requires LiveToken(f.tokens).None? ==> NoneLive(f.tokens)
    ensures NewlyIssued(f, Mint(f, now, hook, action).value, now, hook)
  {
    hide LiveToken;
    var g, n := Mint(f, now, hook, action).value, |f.tokens|;
    forall i | 0 <= i < n
      ensures g.tokens[i] == if f.tokens[i].revokedAt.Some? then f.tokens[i]
                             else f.tokens[i].(revokedAt := Some(now), revocation := Some(ExpiredSuperseded))
    {
      if LiveToken(f.tokens).None? { assert f.tokens[i] in f.tokens && !Live(f.tokens[i]); }
    }
  }

  /** One token more than before, and every earlier one ended. */
  predicate NewlyIssued(f: CaseFile, g: CaseFile, now: Instant, hook: OnSuccess)
    requires hook.MintToken?
  {
    var n := |f.tokens|;
    && |g.tokens| == n + 1 && g.tokens[n].tokenId == hook.tokenId && g.tokens[n].revokedAt.None?
    && g.tokens[n].expiresAt == (if now + hook.lifetime <= f.row.windowEndAt then now + hook.lifetime
                                 else f.row.windowEndAt)
    && (forall i :: 0 <= i < n ==>
          g.tokens[i] == if f.tokens[i].revokedAt.Some? then f.tokens[i]
                         else f.tokens[i].(revokedAt := Some(now), revocation := Some(ExpiredSuperseded)))
    && g.row == f.row.(auditSeq := f.row.auditSeq + 1) && |g.log| == |f.log| + 1 && f.log <= g.log
    && var entry := g.log[|f.log|].entry;
    && entry.eventType == OtherEvent("CUSTOMER_TOKEN_ISSUED") && entry.actor == "customer_response_service"
    && entry.occurredAt == now
  }

  lemma OnlyLive(tokens: seq<Token>)
    requires OneLiveToken(tokens)
    ensures forall t :: t in tokens && Live(t) ==> LiveToken(tokens) == Some(t)
  {
    CountsLive(tokens);
    forall t | t in tokens && Live(t) ensures LiveToken(tokens) == Some(t) {
      var l := LiveToken(tokens).value;
      var i :| 0 <= i < |tokens| && tokens[i] == t;
      var j :| 0 <= j < |tokens| && tokens[j] == l;
    }
  }

  lemma MintKeepsOneLive(f: CaseFile, now: Instant, hook: OnSuccess, action: Option<CandidateAction>)
    requires OneLiveToken(f.tokens) && hook.MintToken?
    ensures var m := Mint(f, now, hook, action);
      m.Some? ==>
        && OneLiveToken(m.value.tokens) && !NoneLive(m.value.tokens)
        && (ExpireWithin(f.tokens, f.row.windowEndAt) ==> ExpireWithin(m.value.tokens, f.row.windowEndAt))
  {
    CountsLive(f.tokens);
    RevokingEnds(f.tokens, now, ExpiredSuperseded);
    var m := Mint(f, now, hook, action);
    if m.Some? && m.value != f {
      var last := |m.value.tokens| - 1;
      assert Live(m.value.tokens[last]);
    }
  }

  // ---- Appending keeps the log faithful ----

  /** One more record: the log stays gap-free, and replays to what reading that record gives. */
  lemma AppendKeepsLog(f: CaseFile, changed: CaseFile, entry: AuditEntry)
    requires LogAgrees(f) && changed.log == f.log && changed.row.auditSeq == f.row.auditSeq
    requires Read(Project(f.row), entry) == Project(changed.row)
    requires entry.eventType == StateTransition ==>
      && entry.previousState == Some(f.row.state) && entry.newState.Some?
      && RuleFor(f.row.state, entry.newState.value).Some?
    ensures LogAgrees(Append(changed, entry))
  {
    var g := Append(changed, entry);
    assert g.log[..|g.log| - 1] == f.log;
    forall i | 0 <= i < |g.log| && g.log[i].entry.eventType == StateTransition
      ensures g.log[i].entry.previousState == Some(Replay(g.log[..i]).state) && g.log[i].entry.newState.Some?
        && RuleFor(g.log[i].entry.previousState.value, g.log[i].entry.newState.value).Some?
    {
      assert g.log[..i] == f.log[..i];
    }
  }

  // ---- Each kind of transaction keeps the invariant ----

  lemma MovedKeepsColumns(row: CaseRow, a: Attempt, now: Instant)
    requires ColumnsAgree(row) && RuleFor(row.state, a.target).Some?
    ensures var next := MovedRow(row, a, now);
      (next.cycles <= COUNTER_CEILING ==> ColumnsAgree(next))
      && (next.nextReviewAt.None?)
      && (next.cycles > COUNTER_CEILING <==> a.target == DecisionPending && row.cycles == COUNTER_CEILING)
  {
    EdgeCostsACycleOrClimbs(row.state, a.target);
  }

  lemma MovedKeepsLog(f: CaseFile, a: Attempt, now: Instant)
    requires LogAgrees(f) && RuleFor(f.row.state, a.target).Some?
    ensures LogAgrees(Moved(f, a, now))
  {
    var g := Moved(f, a, now);
    var changed := CaseFile(MovedRow(f.row, a, now), f.log, g.tokens);
    AppendKeepsLog(f, changed, g.log[|f.log|].entry);
  }

  lemma MovedKeepsTokens(f: CaseFile, a: Attempt, now: Instant)
    requires TokensAgree(f) && RuleFor(f.row.state, a.target).Some?
    ensures TokensAgree(Moved(f, a, now))
  {
    RevokingEnds(f.tokens, now, CaseTerminal);
  }

  /** The only constraints a transition can run into are the cycle ceiling and the audit ceiling. */
  lemma MovedStorable(f: CaseFile, a: Attempt, now: Instant)
    requires Invariant(f) && RuleFor(f.row.state, a.target).Some?
    ensures Storable(Moved(f, a, now)) <==>
      f.row.auditSeq < AUDIT_CEILING && (a.target == DecisionPending ==> f.row.cycles < COUNTER_CEILING)
    ensures Storable(Moved(f, a, now)) ==> ColumnsAgree(Moved(f, a, now).row)
  {
    MovedKeepsColumns(f.row, a, now);
    MovedKeepsTokens(f, a, now);
    var next := MovedRow(f.row, a, now);
    assert Moved(f, a, now).row == next.(auditSeq := f.row.auditSeq + 1);
  }

  lemma RecordedKeepsInvariant(f: CaseFile, changed: CaseFile, entry: AuditEntry)
    requires Invariant(f)
    requires changed == f.(row := changed.row)
    requires ColumnsAgree(changed.row) && changed.row.auditSeq == f.row.auditSeq
    requires changed.row.state == f.row.state && changed.row.windowEndAt == f.row.windowEndAt
    requires Read(Project(f.row), entry) == Project(changed.row) && entry.eventType != StateTransition
    ensures Invariant(Recorded(f, changed, entry))
  {
    AppendKeepsLog(f, changed, entry);
  }

  lemma MintKeepsInvariant(g: CaseFile, a: Attempt, now: Instant)
    requires TokensAgree(g) && LogAgrees(g) && a.onSuccess.MintToken? && !IsTerminal(g.row.state)
    requires Mint(g, now, a.onSuccess, a.action).Some?
    ensures var h := Mint(g, now, a.onSuccess, a.action).value;
      && TokensAgree(h) && LogAgrees(h) && h.row == g.row.(auditSeq := h.row.auditSeq) && g.log <= h.log
      && h.row.auditSeq == g.row.auditSeq + if h == g then 0 else 1
  {
    var entry := TokenIssued(a.onSuccess.tokenId, a.action, now);
    MintKeepsOneLive(g, now, a.onSuccess, a.action);
    var h := Mint(g, now, a.onSuccess, a.action).value;
    if h != g {
      AppendKeepsLog(g, h.(row := g.row, log := g.log), entry);
    }
  }

  /** Further records in the same transaction move nothing but the sequence number. */
  lemma {:induction false} RecordsKeepLog(f: CaseFile, entries: seq<AuditEntry>)
    requires LogAgrees(f) && forall i :: 0 <= i < |entries| ==> entries[i].eventType.OtherEvent?
    ensures var g := WithRecords(f, entries);
      && LogAgrees(g) && g.tokens == f.tokens && f.log <= g.log
      && g.row == f.row.(auditSeq := f.row.auditSeq + |entries|)
  {
    if entries != [] {
      var n := |entries| - 1;
      RecordsKeepLog(f, entries[..n]);
      var before := WithRecords(f, entries[..n]);
      AppendKeepsLog(before, before, entries[n]);
    }
  }

  lemma PrefixOfPrefix<T>(a: seq<T>, b: seq<T>, c: seq<T>)
    requires a <= b <= c
    ensures a <= c && forall i :: 0 <= i < |b| ==> c[i] == b[i]
  {}

  /** Records follow each other in the log as they were written. */
  lemma {:induction false} RecordsWritten(f: CaseFile, entries: seq<AuditEntry>)
    ensures var g := WithRecords(f, entries);
      && |g.log| == |f.log| + |entries| && f.log <= g.log
      && forall i :: 0 <= i < |entries| ==> g.log[|f.log| + i].entry == entries[i]
  {
    if entries != [] { RecordsWritten(f, entries[..|entries| - 1]); }
  }

  /** A transaction that only writes records commits exactly when the log has room for them all. */
  lemma NotesStep(f: CaseFile, m: Moment)
    requires Invariant(f) && m.event.WriteRecords?
    ensures Invariant(Step(f, m))
    ensures var g, n := Step(f, m), |m.event.notes|;
      if f.row.auditSeq + n <= AUDIT_CEILING
      then g.row == f.row.(auditSeq := f.row.auditSeq + n) && g.tokens == f.tokens && f.log <= g.log
      else g == f
  {
    hide LogAgrees, Rank, IsTerminal;
    RecordsKeepLog(f, NoteEntries(m.event.notes, m.now));
  }

  /** And the records are those, in that order. */
  lemma NotesWritten(f: CaseFile, m: Moment)
    requires m.event.WriteRecords? && Step(f, m) != f
    ensures var g, n := Step(f, m), |m.event.notes|;
      && |g.log| == |f.log| + n
      && forall i :: 0 <= i < n ==>
           var note := m.event.notes[i];
           g.log[|f.log| + i].entry
             == AuditEntry(OtherEvent(note.name), note.actor, note.previous, note.next, None, None, "", 0, m.now)
  {
    hide Storable, WithRecords;
    var entries := NoteEntries(m.event.notes, m.now);
    RecordsWritten(f, entries);
    assert Step(f, m) == WithRecords(f, entries);
    forall i | 0 <= i < |m.event.notes|
      ensures var note := m.event.notes[i];
        Step(f, m).log[|f.log| + i].entry
          == AuditEntry(OtherEvent(note.name), note.actor, note.previous, note.next, None, None, "", 0, m.now)
    {
      assert Step(f, m).log[|f.log| + i].entry == entries[i];
    }
  }

  /** What the hook may still move after the transition: the review instant it schedules, one token, and records. */
  lemma HookKeeps(g: CaseFile, a: Attempt, now: Instant)
    requires TokensAgree(g) && LogAgrees(g) && Fits(a) && g.row.state == a.target
    requires AfterSuccess(g, a, now).Some?
    ensures var h := AfterSuccess(g, a, now).value;
      && TokensAgree(h) && LogAgrees(h) && g.log <= h.log
      && h.row == g.row.(auditSeq := h.row.auditSeq, nextReviewAt := h.row.nextReviewAt)
      && h.row.nextReviewAt == (if a.onSuccess.ScheduleReview?
                                then ReviewInstant(now, g.row.windowEndAt, a.onSuccess.interval)
                                else g.row.nextReviewAt)
      && (!a.onSuccess.MintToken? ==> h.tokens == g.tokens && h.row.auditSeq == g.row.auditSeq + |a.alongside|)
      && (a.onSuccess.MintToken? ==>
            var minted := Mint(g, now, a.onSuccess, a.action);
            minted.Some? && h.tokens == minted.value.tokens
            && h.row.auditSeq == minted.value.row.auditSeq + |a.alongside|)
  {
    hide Mint, RuleFor;
    if a.onSuccess.MintToken? { MintKeepsInvariant(g, a, now); }
    RecordsKeepLog(Hooked(g, a, now).value, HookEntries(a, now));
  }

  lemma TransactKeepsInvariant(f: CaseFile, a: Attempt, now: Instant)
    requires Invariant(f) && Fits(a)
    ensures Invariant(Transact(f, a, now).0)
  {
    hide AfterSuccess, LogAgrees, TokensAgree, RuleFor;
    if Transact(f, a, now).1.Applied? {
      MovedKeepsLog(f, a, now);
      MovedKeepsTokens(f, a, now);
      MovedKeepsColumns(f.row, a, now);
      HookKeeps(Moved(f, a, now), a, now);
    }
  }

  lemma OwnershipKeepsInvariant(f: CaseFile, user: UserId, now: Instant)
    requires Invariant(f)
    ensures Invariant(AssignOwner(f, user, now)) && Invariant(ReleaseOwner(f, user, now))
  {
    if !IsTerminal(f.row.state) && f.row.owner.None? {
      RecordedKeepsInvariant(f, f.(row := f.row.(owner := Some(user), assignedAt := Some(now))),
                             OwnerEntry(HumanOwnerAssigned, user, now));
    }
    if f.row.owner.Some? {
      RecordedKeepsInvariant(f, f.(row := f.row.(owner := None, assignedAt := None)),
                             OwnerEntry(HumanOwnerReleased, user, now));
    }
  }

  /** The invariant holds after every transaction by every component. */
  lemma StepKeepsInvariant(f: CaseFile, m: Moment)
    requires Invariant(f) && WellFormed(m)
    ensures Invariant(Step(f, m))
  {
    match m.event
    case Transition(a) => TransactKeepsInvariant(f, a, m.now);
    case RecordRejection(r, actor) => RecordedKeepsInvariant(f, f, RejectionEntry(r, actor, m.now));
    case Assign(user) => OwnershipKeepsInvariant(f, user, m.now);
    case Release(user) => OwnershipKeepsInvariant(f, user, m.now);
    case WriteRecords(_) => NotesStep(f, m);
    case SuppressContact => RevokingEnds(f.tokens, m.now, ContactSuppressed);
  }

  lemma OpenedInvariant(windowEndAt: Instant, now: Instant)
    ensures Invariant(Opened(windowEndAt, now))
  {
    var f := Opened(windowEndAt, now);
    assert f.log[..0] == [];
    assert Replay(f.log) == Read(Replay(f.log[..0]), f.log[0].entry);
  }

  predicate WellFormedRun(run: seq<Moment>) { forall m :: m in run ==> WellFormed(m) }

  /** Every reachable state of every run satisfies the invariant. */
  lemma {:induction false} RunKeepsInvariant(f: CaseFile, run: seq<Moment>, k: nat)
    requires Invariant(f) && WellFormedRun(run) && k <= |run|
    ensures Invariant(At(f, run, k))
  {
    if k > 0 {
      RunKeepsInvariant(f, run, k - 1);
      StepKeepsInvariant(At(f, run, k - 1), run[k - 1]);
    }
  }
}
