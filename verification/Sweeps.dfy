/** What the sweeps read, what they attempt, and what the history of other sessions cannot break. */
module Sweeps {
  import opened Common
  import opened Transitions
  import opened CaseModel
  import opened CaseInvariants
  import opened CaseRuns
  import opened JobQueue
  import opened TenantModel
  import opened Oldest

  const SWEEPER_ACTOR := "lifecycle_sweeper"

  /** What the caller's hook does inside an expiry's transaction: it writes records, or raises. */
  datatype Hook = Hook(records: seq<string>, raises: bool)

  /** The hook of each case; a case not listed has none. */
  type Hooks = map<CaseId, Hook>

  function HookOf(hooks: Hooks, id: CaseId): Hook { if id in hooks then hooks[id] else Hook([], false) }

  function ExpiryAttempt(version: int, hook: Hook): Attempt {
    Attempt(version, Expired, "recovery window elapsed", SWEEPER_ACTOR, None, Some(RecoveryWindowElapsed),
            false, if hook.raises then GiveUp else Nothing, hook.records)
  }

  /** Live cases whose recovery window has closed. */
  function DueForLifecycle(t: Tenant, now: Instant): set<CaseId> {
    set id | id in t.files && !IsTerminal(t.files[id].row.state) && t.files[id].row.windowEndAt <= now
  }

  function WindowEnds(t: Tenant): map<CaseId, int> {
    map id | id in t.files :: t.files[id].row.windowEndAt
  }

  /** An expiry at this log length cannot commit: its hook raises, or the schema leaves its records no room. */
  predicate NoRoom(auditSeq: int, hook: Hook) {
    hook.raises || auditSeq + 1 + |hook.records| > AUDIT_CEILING
  }

  /** A case whose expiry cannot commit. */
  predicate Stuck(t: Tenant, id: CaseId, hooks: Hooks) {
    id in t.files && NoRoom(t.files[id].row.auditSeq, HookOf(hooks, id))
  }

  /** An expiry this sweep attempted: on a case that was due when it read, at the version it read. */
  predicate IsExpiry(t: Tenant, readAt: Instant, c: Commit, hooks: Hooks) {
    && c.OnCase? && c.id in DueForLifecycle(t, readAt) && readAt <= c.moment.now
    && c.moment.event == Transition(ExpiryAttempt(t.files[c.id].row.version, HookOf(hooks, c.id)))
  }

  /**
    A case its window has closed on, column by column: how and why it ended, and every link to it dead. No other
    column moves.
  */
  predicate EndedByWindow(f: CaseFile, g: CaseFile, now: Instant, records: nat) {
    && g.row == f.row.(state := Expired, version := f.row.version + 1, nextReviewAt := None,
                       terminalReason := Some(RecoveryWindowElapsed), auditSeq := f.row.auditSeq + 1 + records)
    && |g.tokens| == |f.tokens|
    && forall i :: 0 <= i < |f.tokens| ==>
         g.tokens[i] == if f.tokens[i].revokedAt.Some? then f.tokens[i]
                        else f.tokens[i].(revokedAt := Some(now), revocation := Some(CaseTerminal))
  }

  /** The record of the ending, and behind it the records of the caller's hook. */
  predicate EndingOnRecord(f: CaseFile, g: CaseFile, now: Instant, records: seq<string>) {
    var n := |f.log|;
    && |g.log| == n + 1 + |records| && f.log <= g.log
    && g.log[n].entry == AuditEntry(StateTransition, "lifecycle_sweeper", Some(f.row.state), Some(Expired), None,
                                    None, "recovery window elapsed", LiveCount(f.tokens), now)
    && forall i :: 0 <= i < |records| ==>
         g.log[n + 1 + i].entry.eventType == OtherEvent(records[i])
         && g.log[n + 1 + i].entry.actor == "lifecycle_sweeper" && g.log[n + 1 + i].entry.occurredAt == now
  }

  predicate ExpiredFor(f: CaseFile, g: CaseFile, now: Instant, records: seq<string>) {
    EndedByWindow(f, g, now, |records|) && EndingOnRecord(f, g, now, records)
  }

  lemma ExpiryRows(f: CaseFile, m: Moment, version: int, hook: Hook)
    requires Invariant(f) && m.event == Transition(ExpiryAttempt(version, hook)) && AppliedBy(f, m)
    ensures f.row.version == version && !IsTerminal(f.row.state)
    ensures EndedByWindow(f, Step(f, m), m.now, |hook.records|)
  {
    hide LogAgrees, Storable, LiveCount, WithRecords, CyclesMatchState, ExecutionsWithinCycles, VersionWithinBound;
    hide OneLiveToken, ExpireWithin, ChecksHold;
    var a := m.event.attempt;
    MovedKeepsLog(f, a, m.now);
    RecordsKeepLog(Moved(f, a, m.now), HookEntries(a, m.now));
    assert Step(f, m) == WithRecords(Moved(f, a, m.now), HookEntries(a, m.now));
  }

  lemma ExpiryRecords(f: CaseFile, m: Moment, version: int, hook: Hook)
    requires m.event == Transition(ExpiryAttempt(version, hook)) && AppliedBy(f, m)
    ensures EndingOnRecord(f, Step(f, m), m.now, hook.records)
  {
    hide Storable, LiveCount, WithRecords, RevokeLive, RuleFor;
    var a := m.event.attempt;
    var moved, g, n := Moved(f, a, m.now), Step(f, m), |f.log|;
    RecordsWritten(moved, HookEntries(a, m.now));
    MoveGrows(f, a, m.now);
    PrefixOfPrefix(f.log, moved.log, g.log);
    forall i | 0 <= i < |hook.records|
      ensures g.log[n + 1 + i].entry.eventType == OtherEvent(hook.records[i])
        && g.log[n + 1 + i].entry.actor == "lifecycle_sweeper" && g.log[n + 1 + i].entry.occurredAt == m.now
    {
      assert g.log[|moved.log| + i].entry == HookEntries(a, m.now)[i];
    }
  }

  /** What an applied expiry did to the case it was applied to. */
  lemma ExpiryLands(f: CaseFile, m: Moment, version: int, hook: Hook)
    requires Invariant(f) && m.event == Transition(ExpiryAttempt(version, hook)) && AppliedBy(f, m)
    ensures f.row.version == version && !IsTerminal(f.row.state)
    ensures ExpiredFor(f, Step(f, m), m.now, hook.records)
  {
    hide Invariant, Step, EndedByWindow, EndingOnRecord;
    ExpiryRows(f, m, version, hook);
    ExpiryRecords(f, m, version, hook);
  }

  /** An applied expiry took a case nobody had moved since the read, live, with its window closed. */
  lemma ExpiryIsSafe(t: Tenant, readAt: Instant, h: seq<Commit>, p: nat, hooks: Hooks)
    requires ValidTenant(t) && WellFormedHistory(h) && p < |h|
    requires IsExpiry(t, readAt, h[p], hooks) && AppliedPosition(t, h, p)
    ensures h[p].id in RunAll(t, h[..p]).files && h[p].id in RunAll(t, h[..p + 1]).files
    ensures var before, after := RunAll(t, h[..p]).files[h[p].id].row, RunAll(t, h[..p + 1]).files[h[p].id].row;
      && SameLifecycle(t.files[h[p].id].row, before) && !IsTerminal(before.state)
      && before.windowEndAt == t.files[h[p].id].row.windowEndAt <= readAt <= h[p].moment.now
      && after.state == Expired && after.version == before.version + 1
      && after.terminalReason == Some(RecoveryWindowElapsed)
      && ExpiredFor(RunAll(t, h[..p]).files[h[p].id], RunAll(t, h[..p + 1]).files[h[p].id], h[p].moment.now,
                    if h[p].id in hooks then hooks[h[p].id].records else [])
  {
    hide Step, AppliedBy, Invariant, RunAll, RuleFor, SameLifecycle, OnePendingPerKey, LiveCount;
    UnmovedMeansUnchanged(t, h[..p], h[p].id);
    HistoryKeepsValid(t, h[..p]);
    assert h[..p + 1] == h[..p] + [h[p]];
    RunOneMore(t, h[..p], h[p]);
    ExpiryLands(RunAll(t, h[..p]).files[h[p].id], h[p].moment, t.files[h[p].id].row.version,
                HookOf(hooks, h[p].id));
  }

  /** Alone, an expiry on a due case commits iff its hook goes through and the log has room; otherwise it raises. */
  lemma SoloExpiry(f: CaseFile, now: Instant, hook: Hook)
    requires Invariant(f) && !IsTerminal(f.row.state)
    ensures var (g, verdict) := Transact(f, ExpiryAttempt(f.row.version, hook), now);
      && verdict == (if NoRoom(f.row.auditSeq, hook) then RolledBack else Applied)
      && (verdict.Applied? ==> ExpiredFor(f, g, now, hook.records))
  {
    hide AfterSuccess, Storable, Moved, LogAgrees, TokensAgree, ExpiredFor;
    AppliedIff(f, ExpiryAttempt(f.row.version, hook), now);
    if !NoRoom(f.row.auditSeq, hook) {
      ExpiryLands(f, Moment(now, Transition(ExpiryAttempt(f.row.version, hook))), f.row.version, hook);
    }
  }

  /**
    What the expiry sweep reads, column by column: live cases whose window is over, over longest first, each once, up
    to the limit; one is left out only by a full batch of cases over at least as long.
  */
  predicate LongestOver(t: Tenant, now: Instant, batch: seq<CaseId>, limit: nat) {
    && Distinct(batch) && |batch| <= limit
    && (forall id :: id in batch ==>
          id in t.files && !IsTerminal(t.files[id].row.state) && t.files[id].row.windowEndAt <= now)
    && (forall i, j :: 0 <= i < j < |batch| ==>
          batch[i] in t.files && batch[j] in t.files
          && t.files[batch[i]].row.windowEndAt <= t.files[batch[j]].row.windowEndAt)
    && (forall id, other ::
          (id in t.files && !IsTerminal(t.files[id].row.state) && t.files[id].row.windowEndAt <= now && id !in batch
           && other in batch) ==>
            other in t.files && t.files[other].row.windowEndAt <= t.files[id].row.windowEndAt)
    && (forall id ::
          (id in t.files && !IsTerminal(t.files[id].row.state) && t.files[id].row.windowEndAt <= now && id !in batch)
          ==> |batch| == limit)
  }

  lemma BatchMeaning(t: Tenant, now: Instant, batch: seq<CaseId>, limit: nat)
    requires OldestFirst(batch, DueForLifecycle(t, now), WindowEnds(t), limit)
    ensures LongestOver(t, now, batch, limit)
  {
    OnlyFullLeavesOut(batch, DueForLifecycle(t, now), WindowEnds(t), limit);
  }

  /** Where an expiry was applied, it took a live case whose window was over, and did to it what an expiry does. */
  ghost predicate TookOver(t: Tenant, h: seq<Commit>, p: nat, hooks: Hooks)
    requires p < |h|
  {
    var before, after := RunAll(t, h[..p]), RunAll(t, h[..p + 1]);
    && h[p].OnCase? && h[p].id in before.files && h[p].id in after.files
    && !IsTerminal(before.files[h[p].id].row.state) && before.files[h[p].id].row.windowEndAt <= h[p].moment.now
    && ExpiredFor(before.files[h[p].id], after.files[h[p].id], h[p].moment.now,
                  if h[p].id in hooks then hooks[h[p].id].records else [])
  }

  /** So it is wherever one of these expiries was applied. */
  ghost predicate AllTookOver(t: Tenant, h: seq<Commit>, mine: seq<nat>, hooks: Hooks) {
    && Within(mine, |h|)
    && forall i :: 0 <= i < |mine| && AppliedPosition(t, h, mine[i]) ==> TookOver(t, h, mine[i], hooks)
  }

  lemma AttemptsTook(
    t: Tenant, readAt: Instant, h: seq<Commit>, mine: seq<nat>, batch: seq<CaseId>, hooks: Hooks)
    requires ValidTenant(t) && WellFormedHistory(h) && Attempts(t, readAt, h, mine, batch, hooks)
    ensures AllTookOver(t, h, mine, hooks)
  {
    hide ValidTenant, RunAll, AppliedPosition, IsExpiry, ExpiredFor, SameLifecycle;
    forall i | 0 <= i < |mine| && AppliedPosition(t, h, mine[i]) ensures TookOver(t, h, mine[i], hooks) {
      assert IsExpiry(t, readAt, h[mine[i]], hooks);
      ExpiryTook(t, readAt, h, mine[i], hooks);
    }
  }

  lemma ExpiryTook(t: Tenant, readAt: Instant, h: seq<Commit>, p: nat, hooks: Hooks)
    requires ValidTenant(t) && WellFormedHistory(h) && p < |h|
    requires IsExpiry(t, readAt, h[p], hooks) && AppliedPosition(t, h, p)
    ensures TookOver(t, h, p, hooks)
  {
    hide ValidTenant, RunAll, AppliedPosition, ExpiredFor, SameLifecycle;
    ExpiryIsSafe(t, readAt, h, p, hooks);
  }

  // ---- Histories, piece by piece ----

  /** `after` is what the history since an earlier point made of `before`. */
  ghost predicate Led(before: Tenant, earlier: seq<Commit>, after: Tenant, history: seq<Commit>) {
    && earlier <= history
    && after == RunAll(before, history[|earlier|..])
    && WellFormedHistory(history[|earlier|..])
  }

  lemma LedSelf(t: Tenant, h: seq<Commit>)
    ensures Led(t, h, t, h)
  {
    assert h[|h|..] == [];
  }

  lemma LedOne(t: Tenant, h: seq<Commit>, c: Commit)
    requires WellFormedCommit(c)
    ensures Led(t, h, Apply(t, c), h + [c])
  {
    hide Apply;
    assert (h + [c])[|h|..] == [] + [c];
    RunOneMore(t, [], c);
  }

  lemma LedMeans(before: Tenant, earlier: seq<Commit>, after: Tenant, history: seq<Commit>)
    requires Led(before, earlier, after, history) && earlier <= history
    ensures after == RunAll(before, history[|earlier|..]) && WellFormedHistory(history[|earlier|..])
  {}

  lemma LedOn(before: Tenant, h0: seq<Commit>, mid: Tenant, h1: seq<Commit>, after: Tenant, h2: seq<Commit>)
    requires Led(before, h0, mid, h1) && Led(mid, h1, after, h2)
    ensures Led(before, h0, after, h2)
    ensures h0 <= h1 <= h2 && h2[|h0|..] == h1[|h0|..] + h2[|h1|..]
  {
    assert h2[|h0|..] == h1[|h0|..] + h2[|h1|..];
    RunConcat(before, h1[|h0|..], h2[|h1|..]);
  }

  lemma RefusedBy(f: CaseFile, a: Attempt, now: Instant)
    ensures Transact(f, a, now).1.Rejected? ==> Refused(f.row, a) == Some(Transact(f, a, now).1.rejection)
  {}

  /** Only a full log can keep a change of owner from being committed. */
  lemma OwnershipCommits(f: CaseFile, user: UserId, now: Instant)
    requires Invariant(f)
    ensures Storable(f) && f.row.auditSeq <= AUDIT_CEILING
    ensures var taken := f.(row := f.row.(owner := Some(user), assignedAt := Some(now)));
      Storable(Append(taken, OwnerEntry(HumanOwnerAssigned, user, now))) <==> f.row.auditSeq != AUDIT_CEILING
    ensures var given := f.(row := f.row.(owner := None, assignedAt := None));
      Storable(Append(given, OwnerEntry(HumanOwnerReleased, user, now))) <==> f.row.auditSeq != AUDIT_CEILING
  {
    hide LogAgrees, CyclesMatchState, ExecutionsWithinCycles, VersionWithinBound;
  }

  lemma NotesCommit(f: CaseFile, m: Moment)
    requires Invariant(f) && m.event.WriteRecords?
    ensures Storable(WithRecords(f, NoteEntries(m.event.notes, m.now))) <==>
      f.row.auditSeq + |m.event.notes| <= AUDIT_CEILING
    ensures f.row.auditSeq + |m.event.notes| > AUDIT_CEILING ==> Step(f, m) == f
  {
    hide LogAgrees;
    RecordsKeepLog(f, NoteEntries(m.event.notes, m.now));
    NotesStep(f, m);
  }

  lemma UnchangedStep(t: Tenant, c: Commit)
    requires c.OnCase? && c.id in t.files && Step(t.files[c.id], c.moment) == t.files[c.id]
    ensures Apply(t, c) == t
  {
    assert Apply(t, c).files == t.files;
  }

  /** A position keeps its verdict when the history before it is put back in front. */
  lemma PositionShift(t: Tenant, h: seq<Commit>, k: seq<Commit>, p: nat)
    requires p < |k|
    ensures AppliedPosition(t, h + k, |h| + p) <==> AppliedPosition(RunAll(t, h), k, p)
  {
    hide AppliedBy;
    assert (h + k)[..|h| + p] == h + k[..p];
    RunConcat(t, h, k[..p]);
  }

  lemma CountOneMore(t: Tenant, h: seq<Commit>, more: seq<Commit>, positions: seq<nat>, p: nat)
    requires Within(positions, |h|) && p < |more|
    ensures Within(positions + [|h| + p], |h + more|)
    ensures CountApplied(t, h + more, positions + [|h| + p])
         == CountApplied(t, h, positions) + if AppliedPosition(RunAll(t, h), more, p) then 1 else 0
  {
    hide RunAll, AppliedPosition;
    CountStable(t, h, more, positions);
    PositionShift(t, h, more, p);
    assert (positions + [|h| + p])[..|positions|] == positions;
  }

  predicate Increasing(positions: seq<nat>) {
    forall i, j :: 0 <= i < j < |positions| ==> positions[i] < positions[j]
  }

  function Shifted(positions: seq<nat>, distance: nat): seq<nat> {
    seq(|positions|, i requires 0 <= i < |positions| => positions[i] + distance)
  }

  /** Counting applied positions of one stretch of a history after another. */
  lemma {:induction false} CountJoin(
    t: Tenant, h: seq<Commit>, more: seq<Commit>, mine: seq<nat>, next: seq<nat>)
    requires Within(mine, |h|) && Within(next, |more|)
    ensures Within(mine + Shifted(next, |h|), |h + more|)
    ensures CountApplied(t, h + more, mine + Shifted(next, |h|))
         == CountApplied(t, h, mine) + CountApplied(RunAll(t, h), more, next)
  {
    hide RunAll, AppliedPosition;
    var longer := mine + Shifted(next, |h|);
    if next == [] {
      assert longer == mine;
      CountStable(t, h, more, mine);
    } else {
      var n := |next| - 1;
      CountJoin(t, h, more, mine, next[..n]);
      assert longer[..|longer| - 1] == mine + Shifted(next[..n], |h|);
      PositionShift(t, h, more, next[n]);
    }
  }

  /** What a sweep attempted: each batch case once, in order, at the version it read, no earlier than it read. */
  ghost predicate Attempts(
    t: Tenant, readAt: Instant, h: seq<Commit>, mine: seq<nat>, batch: seq<CaseId>, hooks: Hooks)
  {
    && Within(mine, |h|) && Increasing(mine) && |mine| <= |batch|
    && forall i :: 0 <= i < |mine| ==> IsExpiry(t, readAt, h[mine[i]], hooks) && h[mine[i]].id == batch[i]
  }

  lemma OneMoreAttempt(
    t: Tenant, readAt: Instant, h: seq<Commit>, more: seq<Commit>, mine: seq<nat>, batch: seq<CaseId>, p: nat,
    hooks: Hooks)
    requires Attempts(t, readAt, h, mine, batch, hooks) && |mine| < |batch| && p < |more|
    requires IsExpiry(t, readAt, more[p], hooks) && more[p].id == batch[|mine|]
    ensures Attempts(t, readAt, h + more, mine + [|h| + p], batch, hooks)
  {
    var longer := mine + [|h| + p];
    forall i | 0 <= i < |longer|
      ensures longer[i] < |h + more| && IsExpiry(t, readAt, (h + more)[longer[i]], hooks)
        && (h + more)[longer[i]].id == batch[i]
    {
      if i < |mine| { assert (h + more)[mine[i]] == h[mine[i]]; }
    }
  }

  /** The attempts so far, and the count of those that were applied. */
  ghost predicate Progress(
    t: Tenant, readAt: Instant, h: seq<Commit>, mine: seq<nat>, batch: seq<CaseId>, expired: nat, hooks: Hooks)
  {
    Attempts(t, readAt, h, mine, batch, hooks) && expired == CountApplied(t, h, mine)
  }

  lemma ProgressNone(t: Tenant, readAt: Instant, batch: seq<CaseId>, hooks: Hooks)
    ensures Progress(t, readAt, [], [], batch, 0, hooks)
  {}

  lemma ProgressMeans(
    t: Tenant, readAt: Instant, h: seq<Commit>, mine: seq<nat>, batch: seq<CaseId>, expired: nat, hooks: Hooks)
    requires Progress(t, readAt, h, mine, batch, expired, hooks)
    ensures Attempts(t, readAt, h, mine, batch, hooks)
  {}

  lemma ProgressOn(
    t: Tenant, readAt: Instant, h: seq<Commit>, more: seq<Commit>, mine: seq<nat>, batch: seq<CaseId>,
    expired: nat, p: nat, hooks: Hooks)
    requires Progress(t, readAt, h, mine, batch, expired, hooks) && |mine| < |batch| && p < |more|
    requires IsExpiry(t, readAt, more[p], hooks) && more[p].id == batch[|mine|]
    ensures Progress(t, readAt, h + more, mine + [|h| + p], batch,
                     expired + if AppliedPosition(RunAll(t, h), more, p) then 1 else 0, hooks)
  {
    hide RunAll, AppliedPosition, DueForLifecycle;
    OneMoreAttempt(t, readAt, h, more, mine, batch, p, hooks);
    CountOneMore(t, h, more, mine, p);
  }

  // ---- Passes one after another ----

  /** An expiry of a case that was due at some earlier read, at the version that was read. */
  ghost predicate ExpiryOfRead(t: Tenant, h: seq<Commit>, p: nat, hooks: Hooks)
    requires p < |h|
  {
    exists q, readAt :: 0 <= q <= p && IsExpiry(RunAll(t, h[..q]), readAt, h[p], hooks)
  }

  /** Where in a history the expiries of successive passes stand, each at a place of its own. */
  ghost predicate Tried(t: Tenant, h: seq<Commit>, mine: seq<nat>, hooks: Hooks) {
    Within(mine, |h|) && Increasing(mine) && forall i :: 0 <= i < |mine| ==> ExpiryOfRead(t, h, mine[i], hooks)
  }

  /** Tries stay where they are when the history grows. */
  lemma TriedLater(t: Tenant, h: seq<Commit>, more: seq<Commit>, mine: seq<nat>, hooks: Hooks)
    requires Tried(t, h, mine, hooks)
    ensures Tried(t, h + more, mine, hooks)
  {
    hide RunAll, IsExpiry;
    forall i | 0 <= i < |mine| ensures ExpiryOfRead(t, h + more, mine[i], hooks) {
      assert ExpiryOfRead(t, h, mine[i], hooks);
      var q, readAt :| 0 <= q <= mine[i] && IsExpiry(RunAll(t, h[..q]), readAt, h[mine[i]], hooks);
      assert (h + more)[..q] == h[..q] && (h + more)[mine[i]] == h[mine[i]];
    }
  }

  /** One more pass: its attempts come after all the earlier ones, and its count adds to theirs. */
  lemma TriedOn(
    t: Tenant, h: seq<Commit>, more: seq<Commit>, mine: seq<nat>, readAt: Instant, next: seq<nat>,
    batch: seq<CaseId>, hooks: Hooks)
    requires Tried(t, h, mine, hooks) && Attempts(RunAll(t, h), readAt, more, next, batch, hooks)
    ensures Tried(t, h + more, mine + Shifted(next, |h|), hooks)
    ensures CountApplied(t, h + more, mine + Shifted(next, |h|))
         == CountApplied(t, h, mine) + CountApplied(RunAll(t, h), more, next)
  {
    hide RunAll, IsExpiry, ExpiryOfRead, CountApplied;
    TriedLater(t, h, more, mine, hooks);
    CountJoin(t, h, more, mine, next);
    var longer := mine + Shifted(next, |h|);
    forall i | |mine| <= i < |longer| ensures ExpiryOfRead(t, h + more, longer[i], hooks) {
      assert (h + more)[..|h|] == h && (h + more)[longer[i]] == more[next[i - |mine|]];
      ReadJustNow(t, h + more, |h|, longer[i], readAt, hooks);
    }
  }

  lemma ReadJustNow(t: Tenant, h: seq<Commit>, q: nat, p: nat, readAt: Instant, hooks: Hooks)
    requires q <= p < |h| && IsExpiry(RunAll(t, h[..q]), readAt, h[p], hooks)
    ensures ExpiryOfRead(t, h, p, hooks)
  {}

  /** A startup drain so far: its tries, at most so many, and the count of those that were applied. */
  ghost predicate DrainedSoFar(t: Tenant, h: seq<Commit>, mine: seq<nat>, most: nat, total: nat) {
    Tried(t, h, mine, NO_HOOKS) && |mine| <= most && total == CountApplied(t, h, mine)
  }

  /** The same of every try of a drain: each was made on a read of its own. */
  lemma TriesTook(t: Tenant, h: seq<Commit>, mine: seq<nat>, hooks: Hooks)
    requires ValidTenant(t) && WellFormedHistory(h) && Tried(t, h, mine, hooks)
    ensures AllTookOver(t, h, mine, hooks)
  {
    hide ValidTenant, RunAll, AppliedPosition, IsExpiry, TookOver;
    forall i | 0 <= i < |mine| && AppliedPosition(t, h, mine[i]) ensures TookOver(t, h, mine[i], hooks) {
      assert ExpiryOfRead(t, h, mine[i], hooks);
      var q, readAt :| 0 <= q <= mine[i] && IsExpiry(RunAll(t, h[..q]), readAt, h[mine[i]], hooks);
      TookSince(t, h, q, mine[i], readAt, hooks);
    }
  }

  lemma TookSince(t: Tenant, h: seq<Commit>, q: nat, p: nat, readAt: Instant, hooks: Hooks)
    requires ValidTenant(t) && WellFormedHistory(h) && q <= p < |h|
    requires IsExpiry(RunAll(t, h[..q]), readAt, h[p], hooks) && AppliedPosition(t, h, p)
    ensures TookOver(t, h, p, hooks)
  {
    hide ValidTenant, RunAll, AppliedPosition, IsExpiry, ExpiredFor;
    var first, rest := h[..q], h[q..];
    assert h == first + rest && rest[p - q] == h[p];
    HistoryKeepsValid(t, first);
    PositionShift(t, first, rest, p - q);
    ExpiryTook(RunAll(t, first), readAt, rest, p - q, hooks);
    assert h[..p] == first + rest[..p - q] && h[..p + 1] == first + rest[..p + 1 - q];
    RunConcat(t, first, rest[..p - q]);
    RunConcat(t, first, rest[..p + 1 - q]);
  }

  lemma NothingDrained(t: Tenant)
    ensures DrainedSoFar(t, [], [], 0, 0)
  {}

  lemma PassDrained(
    t: Tenant, h: seq<Commit>, more: seq<Commit>, mine: seq<nat>, pass: nat, total: nat, readAt: Instant,
    next: seq<nat>, batch: seq<CaseId>, expired: Result<nat>)
    requires DrainedSoFar(t, h, mine, pass * DEFAULT_SWEEP_LIMIT, total)
    requires Attempts(RunAll(t, h), readAt, more, next, batch, NO_HOOKS)
    requires expired.Success? ==> Progress(RunAll(t, h), readAt, more, next, batch, expired.value, NO_HOOKS)
    requires OldestFirst(batch, DueForLifecycle(RunAll(t, h), readAt), WindowEnds(RunAll(t, h)), DEFAULT_SWEEP_LIMIT)
    ensures Tried(t, h + more, mine + Shifted(next, |h|), NO_HOOKS)
    ensures |mine + Shifted(next, |h|)| <= (pass + 1) * DEFAULT_SWEEP_LIMIT
    ensures expired.Success? ==>
      DrainedSoFar(t, h + more, mine + Shifted(next, |h|), (pass + 1) * DEFAULT_SWEEP_LIMIT, total + expired.value)
  {
    hide RunAll, Tried, CountApplied, OldestFirst, DueForLifecycle, WindowEnds;
    BatchMembers(RunAll(t, h), readAt, batch, DEFAULT_SWEEP_LIMIT);
    TriedOn(t, h, more, mine, readAt, next, batch, NO_HOOKS);
  }

  // ---- An undisturbed expiry pass ----

  /** What expiring exactly these cases makes of a tenant, and nothing else. */
  ghost predicate Expiries(before: Tenant, after: Tenant, taken: seq<CaseId>, now: Instant, hooks: Hooks) {
    && after.jobs == before.jobs && after.files.Keys == before.files.Keys
    && (forall id :: id in before.files && id !in taken ==> after.files[id] == before.files[id])
    && (forall id :: id in taken ==>
          && id in before.files && !Stuck(before, id, hooks)
          && after.files[id] == Transact(
               before.files[id], ExpiryAttempt(before.files[id].row.version, HookOf(hooks, id)), now).0)
  }

  lemma ExpiriesEmpty(t: Tenant, now: Instant, hooks: Hooks)
    ensures Expiries(t, t, [], now, hooks)
  {}

  /** What that is, column by column. */
  lemma ExpiriesMeaning(before: Tenant, after: Tenant, taken: seq<CaseId>, now: Instant, hooks: Hooks)
    requires ValidTenant(before) && Expiries(before, after, taken, now, hooks)
    requires forall id :: id in taken ==> id in DueForLifecycle(before, now)
    ensures EachExpired(before, after, taken, now, hooks)
  {
    hide Transact, Invariant, ExpiryAttempt, ExpiredFor;
    forall id | id in taken
      ensures id in before.files && id in after.files
        && ExpiredFor(before.files[id], after.files[id], now, if id in hooks then hooks[id].records else [])
    {
      assert id in DueForLifecycle(before, now);
      SoloExpiry(before.files[id], now, HookOf(hooks, id));
    }
  }

  /** Each of these cases ended as an expiry ends a case, and no other case changed. */
  predicate EachExpired(before: Tenant, after: Tenant, taken: seq<CaseId>, now: Instant, hooks: Hooks) {
    && after.files.Keys == before.files.Keys
    && (forall id :: id in taken ==>
          && id in before.files && !IsTerminal(before.files[id].row.state) && before.files[id].row.windowEndAt <= now
          && ExpiredFor(before.files[id], after.files[id], now, if id in hooks then hooks[id].records else []))
    && (forall id :: id in before.files && id !in taken ==> after.files[id] == before.files[id])
  }

  lemma NoneStuck(before: Tenant, after: Tenant, taken: seq<CaseId>, now: Instant, hooks: Hooks)
    requires Expiries(before, after, taken, now, hooks)
    ensures forall id :: id in taken ==> !Stuck(before, id, hooks)
  {}

  lemma StillUntouched(before: Tenant, mid: Tenant, taken: seq<CaseId>, now: Instant, id: CaseId, hooks: Hooks)
    requires Expiries(before, mid, taken, now, hooks) && id in before.files && id !in taken
    ensures id in mid.files && mid.files[id] == before.files[id]
    ensures Stuck(mid, id, hooks) <==> Stuck(before, id, hooks)
  {}

  /** One more due case expired. */
  lemma OneMoreExpiry(
    before: Tenant, mid: Tenant, taken: seq<CaseId>, now: Instant, id: CaseId, m: Moment, hooks: Hooks)
    requires Expiries(before, mid, taken, now, hooks) && id in before.files && id !in taken && !Stuck(before, id, hooks)
    requires m == Moment(now, Transition(ExpiryAttempt(before.files[id].row.version, HookOf(hooks, id))))
    ensures Expiries(before, Apply(mid, OnCase(id, m)), taken + [id], now, hooks)
  {
    hide Transact;
  }

  lemma ExpiriesJoin(
    before: Tenant, mid: Tenant, after: Tenant, a: seq<CaseId>, b: seq<CaseId>, now: Instant, hooks: Hooks)
    requires Expiries(before, mid, a, now, hooks) && Expiries(mid, after, b, now, hooks)
    requires forall id :: id in b ==> id !in a
    ensures Expiries(before, after, a + b, now, hooks)
  {
    hide Transact;
  }

  /** Expiring due cases takes exactly them out of the due set. */
  lemma ExpiriesShrinkDue(before: Tenant, after: Tenant, taken: seq<CaseId>, now: Instant, hooks: Hooks)
    requires ValidTenant(before) && Expiries(before, after, taken, now, hooks) && Distinct(taken)
    requires forall id :: id in taken ==> id in DueForLifecycle(before, now)
    ensures DueForLifecycle(after, now) == DueForLifecycle(before, now) - Elements(taken)
    ensures |DueForLifecycle(after, now)| == |DueForLifecycle(before, now)| - |taken|
  {
    hide Transact, Invariant, ExpiryAttempt;
    forall id | id in before.files
      ensures id in DueForLifecycle(after, now) <==> id in DueForLifecycle(before, now) && id !in taken
    {
      if id in taken { SoloExpiry(before.files[id], now, HookOf(hooks, id)); }
    }
    DistinctSize(taken);
    assert Elements(taken) <= DueForLifecycle(before, now);
  }

  /** A tenant whose one case fell due with its audit log full, as a run of attached events leaves it. */
  function FullCase(windowEndAt: Instant, start: Instant): Tenant {
    Tenant(map["case" := At(Opened(windowEndAt, start), Attached(AUDIT_CEILING - 1, start), AUDIT_CEILING - 1)], [])
  }

  /** On such a tenant an undisturbed sweep cannot come back with a count: its whole batch is the stuck case. */
  lemma FullCaseStopsTheSweep(windowEndAt: Instant, start: Instant, now: Instant, batch: seq<CaseId>, limit: nat)
    requires windowEndAt <= now && limit > 0
    requires var t := FullCase(windowEndAt, start);
      DueForLifecycle(t, now) <= WindowEnds(t).Keys && OldestFirst(batch, DueForLifecycle(t, now), WindowEnds(t), limit)
    ensures var t := FullCase(windowEndAt, start);
      && ValidTenant(t) && DueForLifecycle(t, now) == {"case"} && batch == ["case"]
      && Stuck(t, "case", NO_HOOKS) && SomeDueStuck(t, now, NO_HOOKS)
  {
    hide Invariant, At, Opened, Attached;
    CeilingReached(windowEndAt, start);
    var t := FullCase(windowEndAt, start);
    assert DueForLifecycle(t, now) == {"case"};
    BatchMembers(t, now, batch, limit);
    assert batch[0] in batch;
  }

  // ---- An undisturbed startup drain ----

  /** The startup drain passes no hook. */
  const NO_HOOKS: Hooks := map[]

  const DEFAULT_SWEEP_LIMIT := 500
  const MAX_STARTUP_SWEEP_PASSES := 100

  /** Some case that has fallen due cannot be expired. */
  ghost predicate SomeDueStuck(t: Tenant, now: Instant, hooks: Hooks) {
    exists id :: id in DueForLifecycle(t, now) && Stuck(t, id, hooks)
  }

  lemma BatchMembers(t: Tenant, now: Instant, batch: seq<CaseId>, limit: nat)
    requires OldestFirst(batch, DueForLifecycle(t, now), WindowEnds(t), limit)
    ensures |batch| == Min(limit, |DueForLifecycle(t, now)|) && Distinct(batch)
    ensures forall id :: id in batch ==> id in DueForLifecycle(t, now)
  {}

  lemma StuckInBatch(t: Tenant, now: Instant, batch: seq<CaseId>, hooks: Hooks)
    requires forall id :: id in batch ==> id in DueForLifecycle(t, now)
    requires exists id :: id in batch && Stuck(t, id, hooks)
    ensures SomeDueStuck(t, now, hooks)
  {
    var id :| id in batch && Stuck(t, id, hooks);
    assert id in DueForLifecycle(t, now) && Stuck(t, id, hooks);
  }

  /** Distinct due cases expired so far, and nothing else changed. */
  ghost predicate Drained(before: Tenant, after: Tenant, taken: seq<CaseId>, now: Instant, hooks: Hooks) {
    && Expiries(before, after, taken, now, hooks) && Distinct(taken)
    && forall id :: id in taken ==> id in DueForLifecycle(before, now)
  }

  lemma DrainedNone(t: Tenant, now: Instant, hooks: Hooks)
    ensures Drained(t, t, [], now, hooks)
  {}

  /** What an undisturbed drain has done, column by column. */
  lemma DrainedMeaning(before: Tenant, after: Tenant, taken: seq<CaseId>, now: Instant, hooks: Hooks)
    requires ValidTenant(before) && Drained(before, after, taken, now, hooks)
    ensures EachExpired(before, after, taken, now, hooks)
    ensures |taken| == |DueForLifecycle(before, now)| ==> AllOverTaken(before, taken, now)
  {
    hide Expiries, EachExpired;
    ExpiriesMeaning(before, after, taken, now, hooks);
    DistinctSize(taken);
    assert Elements(taken) <= DueForLifecycle(before, now);
    if |taken| == |DueForLifecycle(before, now)| {
      forall id | id in DueForLifecycle(before, now) ensures id in taken {
        if id !in Elements(taken) { SmallerWithout(Elements(taken), DueForLifecycle(before, now), id); }
      }
    }
  }

  /** No live case whose window is over is missing. */
  predicate AllOverTaken(t: Tenant, taken: seq<CaseId>, now: Instant) {
    forall id :: id in t.files && !IsTerminal(t.files[id].row.state) && t.files[id].row.windowEndAt <= now ==>
      id in taken
  }

  lemma DrainedRest(before: Tenant, after: Tenant, taken: seq<CaseId>, now: Instant, hooks: Hooks)
    requires ValidTenant(before) && Drained(before, after, taken, now, hooks)
    ensures |DueForLifecycle(after, now)| == |DueForLifecycle(before, now)| - |taken|
    ensures SomeDueStuck(after, now, hooks) ==> SomeDueStuck(before, now, hooks)
    ensures DueForLifecycle(after, now) == {} ==> !SomeDueStuck(before, now, hooks)
  {
    hide Transact, Invariant, OnePendingPerKey;
    ExpiriesShrinkDue(before, after, taken, now, hooks);
    assert forall id :: id in DueForLifecycle(after, now) ==> id in DueForLifecycle(before, now) && id !in taken;
    assert DueForLifecycle(after, now) == {} ==>
      forall id :: id in DueForLifecycle(before, now) ==> id in Elements(taken);
  }

  /** One more pass that did not raise. */
  lemma DrainedMore(
    before: Tenant, mid: Tenant, after: Tenant, taken: seq<CaseId>, batch: seq<CaseId>, limit: nat, now: Instant,
    hooks: Hooks)
    requires ValidTenant(before) && Drained(before, mid, taken, now, hooks)
    requires OldestFirst(batch, DueForLifecycle(mid, now), WindowEnds(mid), limit)
    requires Expiries(mid, after, batch, now, hooks)
    ensures Drained(before, after, taken + batch, now, hooks)
    ensures |batch| == Min(limit, |DueForLifecycle(before, now)| - |taken|)
  {
    hide ValidTenant, OldestFirst, Expiries, DueForLifecycle, WindowEnds, SomeDueStuck, Distinct;
    DrainedRest(before, mid, taken, now, hooks);
    ExpiriesShrinkDue(before, mid, taken, now, hooks);
    BatchMembers(mid, now, batch, limit);
    forall id | id in batch ensures id in DueForLifecycle(before, now) && id !in taken {
      assert id in DueForLifecycle(mid, now);
      assert id in taken <==> id in Elements(taken);
    }
    DistinctJoin(taken, batch);
    ExpiriesJoin(before, mid, after, taken, batch, now, hooks);
  }

  // ---- Reviews ----

  predicate ReviewPending(t: Tenant, id: CaseId) { ReviewWaits(t.jobs, id) }

  lemma PendingText(t: Tenant, id: CaseId)
    ensures ReviewPending(t, id) <==> !NonePending(t.jobs, "case_review:" + id)
  {
    ReviewKeyText(t.jobs, id);
  }

  /** What the sweep re-checks under the row lock before it enqueues. */
  predicate ReviewWanted(t: Tenant, id: CaseId, version: int, cap: int) {
    && id in t.files && t.files[id].row.version == version
    && t.files[id].row.state == PolicyCheck && t.files[id].row.nextReviewAt.Some?
    && t.files[id].row.cycles < cap
  }

  /** Cases waiting at PolicyCheck whose review instant has been reached, under the cap. */
  function DueForReview(t: Tenant, now: Instant, cap: int): set<CaseId> {
    set id | id in t.files && ReviewWanted(t, id, t.files[id].row.version, cap)
             && t.files[id].row.nextReviewAt.value <= now
  }

  function ReviewInstants(t: Tenant): map<CaseId, int> {
    map id | id in t.files && t.files[id].row.nextReviewAt.Some? :: t.files[id].row.nextReviewAt.value
  }

  /**
    Whatever runs between the read and the lock, a version that has not moved still means a review is wanted:
    the re-check can only fail on the version.
  */
  lemma VersionCarriesReview(t: Tenant, readAt: Instant, cap: int, h: seq<Commit>, id: CaseId)
    requires ValidTenant(t) && WellFormedHistory(h) && id in DueForReview(t, readAt, cap)
    ensures id in RunAll(t, h).files
    ensures var read, row := t.files[id].row, RunAll(t, h).files[id].row;
      && (ReviewWanted(RunAll(t, h), id, read.version, cap) <==> row.version == read.version)
      && (row.version == read.version ==>
            row.state == PolicyCheck && row.cycles < cap
            && row.nextReviewAt == read.nextReviewAt && read.nextReviewAt.Some? && read.nextReviewAt.value <= readAt)
    ensures RunAll(t, h).files[id].row.version == t.files[id].row.version ==>
      SameLifecycle(t.files[id].row, RunAll(t, h).files[id].row)
  {
    hide Invariant, RunAll, OnePendingPerKey;
    UnmovedMeansUnchanged(t, h, id);
  }

  /**
    A review this sweep queued at position p of the history since its read, column by column: its case waited at
    POLICY_CHECK, below the cap, at the version that was read, with its review instant reached when it was read, and
    no job was pending under the case's key.
  */
  ghost predicate QueuedReview(t: Tenant, readAt: Instant, cap: int, h: seq<Commit>, p: nat)
    requires p < |h|
  {
    && h[p].OnQueue? && h[p].event.Enqueued? && h[p].event.job.caseId.Some?
    && var id := h[p].event.job.caseId.value;
    && h[p].event.job == Job("case_review", Some("case_review:" + id), Some(id), Pending)
    && var atQueueing := RunAll(t, h[..p]);
    && id in t.files && id in atQueueing.files
    && var row := atQueueing.files[id].row;
    && SameLifecycle(t.files[id].row, row) && row.version == t.files[id].row.version
    && row.state == PolicyCheck && row.cycles < cap && row.nextReviewAt.Some? && row.nextReviewAt.value <= readAt
    && NonePending(atQueueing.jobs, "case_review:" + id)
  }

  /**
    What the review sweep reads, column by column: cases waiting at POLICY_CHECK below the cap whose review instant
    has been reached, due longest first, each once, up to the limit; one is left out only by a full batch of cases
    due at least as long.
  */
  predicate LongestDue(t: Tenant, now: Instant, cap: int, batch: seq<CaseId>, limit: nat) {
    && Distinct(batch) && |batch| <= limit
    && (forall id :: id in batch ==> id in t.files && AwaitsReview(t.files[id].row, now, cap))
    && (forall i, j :: 0 <= i < j < |batch| ==>
          && batch[i] in t.files && batch[j] in t.files
          && t.files[batch[i]].row.nextReviewAt.Some? && t.files[batch[j]].row.nextReviewAt.Some?
          && t.files[batch[i]].row.nextReviewAt.value <= t.files[batch[j]].row.nextReviewAt.value)
    && (forall id, other ::
          id in t.files && AwaitsReview(t.files[id].row, now, cap) && id !in batch && other in batch ==>
          && other in t.files && t.files[other].row.nextReviewAt.Some?
          && t.files[other].row.nextReviewAt.value <= t.files[id].row.nextReviewAt.value)
    && (forall id :: id in t.files && AwaitsReview(t.files[id].row, now, cap) && id !in batch ==> |batch| == limit)
  }

  predicate AwaitsReview(row: CaseRow, now: Instant, cap: int) {
    row.state == PolicyCheck && row.cycles < cap && row.nextReviewAt.Some? && row.nextReviewAt.value <= now
  }

  lemma ReviewBatchMeaning(t: Tenant, now: Instant, cap: int, batch: seq<CaseId>, limit: nat)
    requires DueForReview(t, now, cap) <= ReviewInstants(t).Keys
    requires OldestFirst(batch, DueForReview(t, now, cap), ReviewInstants(t), limit)
    ensures LongestDue(t, now, cap, batch, limit)
  {
    OnlyFullLeavesOut(batch, DueForReview(t, now, cap), ReviewInstants(t), limit);
    assert forall id :: id in DueForReview(t, now, cap) <==> id in t.files && AwaitsReview(t.files[id].row, now, cap);
  }

  /** The reviews a pass queued, at most one per case of its batch, oldest first. */
  ghost predicate QueuedBy(t: Tenant, readAt: Instant, cap: int, h: seq<Commit>, mine: seq<nat>) {
    Within(mine, |h|) && forall i :: 0 <= i < |mine| ==> QueuedReview(t, readAt, cap, h, mine[i])
  }

  lemma QueuedLater(t: Tenant, readAt: Instant, cap: int, h: seq<Commit>, more: seq<Commit>, mine: seq<nat>)
    requires QueuedBy(t, readAt, cap, h, mine)
    ensures QueuedBy(t, readAt, cap, h + more, mine)
  {
    hide RunAll, SameLifecycle, NonePending;
    forall i | 0 <= i < |mine| ensures QueuedReview(t, readAt, cap, h + more, mine[i]) {
      assert (h + more)[..mine[i]] == h[..mine[i]] && (h + more)[mine[i]] == h[mine[i]];
      assert QueuedReview(t, readAt, cap, h, mine[i]);
    }
  }

  /** The job put in at the end of the history is one of the pass's reviews. */
  lemma QueuedNow(t: Tenant, readAt: Instant, cap: int, h: seq<Commit>, mine: seq<nat>, id: CaseId)
    requires ValidTenant(t) && WellFormedHistory(h) && QueuedBy(t, readAt, cap, h, mine)
    requires id in DueForReview(t, readAt, cap) && id in t.files
    requires ReviewWanted(RunAll(t, h), id, t.files[id].row.version, cap) && !ReviewPending(RunAll(t, h), id)
    ensures QueuedBy(t, readAt, cap, h + [OnQueue(Enqueued(ReviewJob(id)))], mine + [|h|])
  {
    hide RunAll, DueForReview, ReviewPending, ReviewWanted, ReviewJob, ValidTenant, QueuedReview;
    QueuedLast(t, readAt, cap, h, id);
    QueuedLater(t, readAt, cap, h, [OnQueue(Enqueued(ReviewJob(id)))], mine);
  }

  lemma QueuedLast(t: Tenant, readAt: Instant, cap: int, h: seq<Commit>, id: CaseId)
    requires ValidTenant(t) && WellFormedHistory(h) && id in DueForReview(t, readAt, cap) && id in t.files
    requires ReviewWanted(RunAll(t, h), id, t.files[id].row.version, cap) && !ReviewPending(RunAll(t, h), id)
    ensures QueuedReview(t, readAt, cap, h + [OnQueue(Enqueued(ReviewJob(id)))], |h|)
  {
    hide RunAll, DueForReview, SameLifecycle, ValidTenant, ReviewWaits, ReviewJob, NonePending;
    VersionCarriesReview(t, readAt, cap, h, id);
    ReviewKeyText(RunAll(t, h).jobs, id);
    assert (h + [OnQueue(Enqueued(ReviewJob(id)))])[..|h|] == h;
  }

  /** What an undisturbed pass has done: a review pending for each case it reached, and no other job. */
  ghost predicate Reviewed(before: Tenant, after: Tenant, reached: seq<CaseId>, queued: nat) {
    && after.files == before.files && before.jobs <= after.jobs && |after.jobs| == |before.jobs| + queued
    && forall id: CaseId :: ReviewPending(after, id) <==> ReviewPending(before, id) || id in reached
  }

  lemma ReviewedNone(t: Tenant)
    ensures Reviewed(t, t, [], 0)
  {}

  lemma ReviewedNext(before: Tenant, mid: Tenant, reached: seq<CaseId>, queued: nat, id: CaseId)
    requires Reviewed(before, mid, reached, queued)
    ensures ReviewPending(mid, id) ==> Reviewed(before, mid, reached + [id], queued)
    ensures !ReviewPending(mid, id) ==>
      Reviewed(before, Apply(mid, OnQueue(Enqueued(ReviewJob(id)))), reached + [id], queued + 1)
  {
    hide ReviewWaits, ReviewJob;
    EnqueueingReview(mid.jobs, id);
  }

  lemma StillWanted(
    before: Tenant, mid: Tenant, reached: seq<CaseId>, queued: nat, now: Instant, cap: int, id: CaseId)
    requires Reviewed(before, mid, reached, queued) && id in DueForReview(before, now, cap) && id in before.files
    ensures ReviewWanted(mid, id, before.files[id].row.version, cap)
  {}

  lemma ReviewInstantsKnown(t: Tenant, now: Instant, cap: int)
    ensures DueForReview(t, now, cap) <= ReviewInstants(t).Keys
  {}

  lemma QueuedNone(t: Tenant, readAt: Instant, cap: int)
    ensures QueuedBy(t, readAt, cap, [], [])
  {}

  lemma ReviewBatch(t: Tenant, now: Instant, cap: int, batch: seq<CaseId>, limit: nat)
    requires DueForReview(t, now, cap) <= ReviewInstants(t).Keys
    requires OldestFirst(batch, DueForReview(t, now, cap), ReviewInstants(t), limit)
    ensures forall id :: id in batch ==> id in DueForReview(t, now, cap) && id in t.files
  {}
}
