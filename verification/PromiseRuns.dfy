/** Properties of a sweep pass over the promise rows, and of two passes one after or beside the other. */
module PromiseRuns {
  import opened Common
  import opened Transitions
  import opened JobQueue
  import opened Oldest
  import opened PromiseModel

  // ---- One pass, in closed form ----

  function RowResult(b: Book, id: CaseId, now: Instant, seen: StatesRead): Promise
    requires id in b.promises
  {
    var state := ReadOf(seen, id);
    BranchResult(b.promises[id], BranchFor(b.promises[id], state, now), state)
  }

  predicate RowAsks(b: Book, id: CaseId, now: Instant, seen: StatesRead) {
    id in b.promises && AsksForReview(BranchFor(b.promises[id], ReadOf(seen, id), now), ReadOf(seen, id))
  }

  /** What a pass makes of the rows: each claimed row by its own branch, every other row as it was. */
  ghost predicate PassResult(b: Book, after: Book, claimed: seq<CaseId>, now: Instant, seen: StatesRead) {
    && after.promises.Keys == b.promises.Keys
    && (forall id :: id in b.promises ==>
          after.promises[id] == if id in claimed then RowResult(b, id, now, seen) else b.promises[id])
    && b.jobs <= after.jobs
    && (forall id: CaseId :: ReviewWaits(after.jobs, id) <==>
          ReviewWaits(b.jobs, id) || (id in claimed && RowAsks(b, id, now, seen)))
  }

  /**
    A pass depends only on which rows it claimed: each takes its own branch from the row as it stood, none
    is moved twice, and the only jobs added are reviews for the rows that ask for one.
  */
  lemma {:induction false} PassClosedForm(b: Book, claimed: seq<CaseId>, now: Instant, seen: StatesRead)
    requires Distinct(claimed) && forall id :: id in claimed ==> id in b.promises
    ensures PassResult(b, SweepRows(b, claimed, now, seen), claimed, now, seen)
  {
    if claimed != [] {
      var n := |claimed| - 1;
      var shorter, id := claimed[..n], claimed[n];
      PassClosedForm(b, shorter, now, seen);
      assert claimed == shorter + [id];
      RowClosedForm(b, SweepRows(b, shorter, now, seen), shorter, id, now, seen);
    }
  }

  lemma RowClosedForm(b: Book, before: Book, shorter: seq<CaseId>, id: CaseId, now: Instant, seen: StatesRead)
    requires PassResult(b, before, shorter, now, seen) && id in b.promises && id !in shorter
    ensures PassResult(b, SweepRow(before, id, now, seen), shorter + [id], now, seen)
  {
    hide ReviewWaits, ReviewJob, Enqueue, BranchFor, AsksForReview, BranchResult;
    EnqueueingReview(before.jobs, id);
  }

  /** A claimed row whose case is read live, with its window open. */
  predicate StillOpen(b: Book, now: Instant, seen: StatesRead, id: CaseId) {
    id in b.promises && id in seen && !IsTerminal(seen[id]) && now < b.promises[id].windowEnd
  }

  /**
    What a pass makes of the rows, column by column and case state by case state. Not claimed, without a case, on a
    recovered case, or on a live case past its window, a row is as it was and asks for nothing; on a case ended
    otherwise it is voided for that ending; on a live case inside its window it ends up scheduled.
  */
  ghost predicate PassOnColumns(b: Book, after: Book, claimed: seq<CaseId>, now: Instant, seen: StatesRead) {
    && after.promises.Keys == b.promises.Keys
    && (forall id :: id in b.promises ==>
          var p, q := b.promises[id], after.promises[id];
          if id !in claimed || id !in seen || seen[id] == Recovered then q == p
          else if IsTerminal(seen[id]) then q == p.(status := Voided, voidedBy := Some(seen[id]))
          else if p.windowEnd <= now then q == p
          else q == p.(status := FollowUpScheduled))
    && b.jobs <= after.jobs
    && (forall id: CaseId :: !NonePending(after.jobs, "case_review:" + id) <==>
          || !NonePending(b.jobs, "case_review:" + id)
          || (id in claimed && StillOpen(b, now, seen, id) && seen[id] in {PolicyCheck, WaitingForOutcome}))
  }

  lemma PassMeaning(b: Book, claimed: seq<CaseId>, now: Instant, seen: StatesRead)
    requires Claimable(b, claimed, now)
    ensures PassOnColumns(b, SweepRows(b, claimed, now, seen), claimed, now, seen)
  {
    hide SweepRows, ReviewWaits, NonePending, Due;
    PassClosedForm(b, claimed, now, seen);
    var after := SweepRows(b, claimed, now, seen);
    forall id | id in claimed ensures id in b.promises && b.promises[id].status in PENDING {
      DueIsPending(b, now, id);
    }
    forall id: CaseId
      ensures ReviewWaits(b.jobs, id) <==> !NonePending(b.jobs, "case_review:" + id)
      ensures ReviewWaits(after.jobs, id) <==> !NonePending(after.jobs, "case_review:" + id)
    {
      ReviewKeyText(b.jobs, id);
      ReviewKeyText(after.jobs, id);
    }
  }

  lemma DueIsPending(b: Book, now: Instant, id: CaseId)
    requires id in DuePromises(b, now)
    ensures id in b.promises && b.promises[id].status in PENDING
  {}

  /** A recorded promise is scheduled by a pass exactly when it is claimed and its case is read live in its window. */
  lemma ScheduledExactlyWhen(b: Book, claimed: seq<CaseId>, now: Instant, seen: StatesRead, id: CaseId)
    requires Claimable(b, claimed, now) && id in b.promises && b.promises[id].status == Recorded
    ensures id in SweepRows(b, claimed, now, seen).promises
    ensures SweepRows(b, claimed, now, seen).promises[id].status == FollowUpScheduled
        <==> id in claimed && id in seen && !IsTerminal(seen[id]) && now < b.promises[id].windowEnd
  {
    hide SweepRows;
    PassMeaning(b, claimed, now, seen);
  }

  /**
    A pending promise is voided by a pass exactly when the pass claims it and finds its case ended other than
    recovered; and it can be claimed only once its follow-up instant has come, however long ago the case ended.
  */
  lemma VoidedExactlyWhen(b: Book, claimed: seq<CaseId>, now: Instant, seen: StatesRead, id: CaseId)
    requires Claimable(b, claimed, now) && id in b.promises && b.promises[id].status in PENDING
    ensures var after := SweepRows(b, claimed, now, seen);
      && id in after.promises
      && (after.promises[id].status == Voided <==> id in claimed && id in seen && Voids(seen[id]))
      && (after.promises[id].status == Voided ==> after.promises[id].voidedBy == Some(seen[id]))
      && (after.promises[id] != b.promises[id] ==>
            b.promises[id].followUpAt.Some? && b.promises[id].followUpAt.value <= now)
  {
    hide SweepRows;
    PassClosedForm(b, claimed, now, seen);
    if id in claimed { assert id in DuePromises(b, now); }
  }

  /** A pass over every due row voids an ended case's pending promise exactly when its follow-up has come due. */
  lemma EndedPromiseVoidedIff(b: Book, claimed: seq<CaseId>, now: Instant, seen: StatesRead, id: CaseId)
    requires Claimable(b, claimed, now) && DuePromises(b, now) == Elements(claimed)
    requires id in b.promises && b.promises[id].status in PENDING && b.promises[id].followUpAt.Some?
    requires id in seen && Voids(seen[id])
    ensures id in SweepRows(b, claimed, now, seen).promises
    ensures SweepRows(b, claimed, now, seen).promises[id].status == Voided <==> b.promises[id].followUpAt.value <= now
  {
    hide SweepRows;
    VoidedExactlyWhen(b, claimed, now, seen, id);
    assert id in DuePromises(b, now) <==> id in claimed;
  }

  /**
    What a pass claims, column by column: pending promises whose follow-up instant has come and whose rows nobody has
    locked, due longest first, each once, up to the limit; one is left out only by a full batch due at least as long.
  */
  predicate LongestWaiting(b: Book, now: Instant, locked: set<CaseId>, claimed: seq<CaseId>, limit: nat) {
    && Distinct(claimed) && |claimed| <= limit
    && (forall id :: id in claimed ==> id in b.promises && Waiting(b.promises[id], now) && id !in locked)
    && (forall i, j :: 0 <= i < j < |claimed| ==>
          && claimed[i] in b.promises && claimed[j] in b.promises
          && b.promises[claimed[i]].followUpAt.Some? && b.promises[claimed[j]].followUpAt.Some?
          && b.promises[claimed[i]].followUpAt.value <= b.promises[claimed[j]].followUpAt.value)
    && (forall id, other ::
          (id in b.promises && Waiting(b.promises[id], now) && id !in locked && id !in claimed && other in claimed) ==>
            other in b.promises && b.promises[other].followUpAt.Some?
            && b.promises[other].followUpAt.value <= b.promises[id].followUpAt.value)
    && (forall id :: id in b.promises && Waiting(b.promises[id], now) && id !in locked && id !in claimed ==>
          |claimed| == limit)
  }

  predicate Waiting(p: Promise, now: Instant) {
    (p.status == Recorded || p.status == FollowUpScheduled) && p.followUpAt.Some? && p.followUpAt.value <= now
  }

  lemma ClaimMeaning(b: Book, now: Instant, locked: set<CaseId>, claimed: seq<CaseId>, limit: nat)
    requires DuePromises(b, now) - locked <= FollowUps(b).Keys
    requires OldestFirst(claimed, DuePromises(b, now) - locked, FollowUps(b), limit)
    ensures LongestWaiting(b, now, locked, claimed, limit)
  {
    OnlyFullLeavesOut(claimed, DuePromises(b, now) - locked, FollowUps(b), limit);
    assert forall id :: id in DuePromises(b, now) <==> id in b.promises && Waiting(b.promises[id], now);
  }

  // ---- The tally ----

  datatype SweepTally = SweepTally(considered: int, scheduled: int, voided: int, skipped: int, reviews: int)

  /** How many of the claimed rows take a branch. */
  function Taking(b: Book, claimed: seq<CaseId>, now: Instant, seen: StatesRead, branches: set<Branch>): nat {
    if claimed == [] then 0
    else
      var id := claimed[|claimed| - 1];
      Taking(b, claimed[..|claimed| - 1], now, seen, branches)
      + if id in b.promises && BranchFor(b.promises[id], ReadOf(seen, id), now) in branches then 1 else 0
  }

  /** Every claimed row takes exactly one branch, so the counts add up to the rows considered. */
  lemma {:induction false} BranchesPartition(b: Book, claimed: seq<CaseId>, now: Instant, seen: StatesRead)
    requires forall id :: id in claimed ==> id in b.promises
    ensures |claimed| == Taking(b, claimed, now, seen, {ScheduleIt}) + Taking(b, claimed, now, seen, {VoidIt})
      + Taking(b, claimed, now, seen, {LeftRecovered, LeftWindowClosed})
      + Taking(b, claimed, now, seen, {AlreadyScheduled, CaseGone})
  {
    if claimed != [] {
      assert claimed[|claimed| - 1] in claimed;
      BranchesPartition(b, claimed[..|claimed| - 1], now, seen);
    }
  }

  // The claimed rows by what becomes of them, told from the columns and the case states.

  /** Recorded, on a live case inside its window. */
  function ToSchedule(b: Book, claimed: seq<CaseId>, now: Instant, seen: StatesRead): set<CaseId> {
    set id | id in claimed && StillOpen(b, now, seen, id) && b.promises[id].status == Recorded
  }

  /** On a case that has ended, other than recovered. */
  function ToVoid(b: Book, claimed: seq<CaseId>, seen: StatesRead): set<CaseId> {
    set id | id in claimed && id in b.promises && id in seen && IsTerminal(seen[id]) && seen[id] != Recovered
  }

  /** On a recovered case, or on a live one past its window. */
  function ToSkip(b: Book, claimed: seq<CaseId>, now: Instant, seen: StatesRead): set<CaseId> {
    set id | id in claimed && id in b.promises && id in seen
             && (seen[id] == Recovered || (!IsTerminal(seen[id]) && b.promises[id].windowEnd <= now))
  }

  predicate TallyOnColumns(b: Book, claimed: seq<CaseId>, now: Instant, seen: StatesRead, t: SweepTally) {
    && t.considered == |claimed| && t.scheduled == |ToSchedule(b, claimed, now, seen)|
    && t.voided == |ToVoid(b, claimed, seen)| && t.skipped == |ToSkip(b, claimed, now, seen)|
  }

  function OnBranch(b: Book, claimed: seq<CaseId>, now: Instant, seen: StatesRead, branches: set<Branch>): set<CaseId> {
    set id | id in claimed && id in b.promises && BranchFor(b.promises[id], ReadOf(seen, id), now) in branches
  }

  lemma OneMoreOnBranch(
    b: Book, claimed: seq<CaseId>, id: CaseId, now: Instant, seen: StatesRead, branches: set<Branch>)
    ensures OnBranch(b, claimed + [id], now, seen, branches)
         == OnBranch(b, claimed, now, seen, branches)
            + if id in b.promises && BranchFor(b.promises[id], ReadOf(seen, id), now) in branches then {id} else {}
  {
    hide BranchFor;
    assert forall k :: k in claimed + [id] <==> k in claimed || k == id;
  }

  /** Counting the claimed rows on some branches is measuring the set of them. */
  lemma {:induction false} TakingIsSize(
    b: Book, claimed: seq<CaseId>, now: Instant, seen: StatesRead, branches: set<Branch>)
    requires Distinct(claimed)
    ensures Taking(b, claimed, now, seen, branches) == |OnBranch(b, claimed, now, seen, branches)|
  {
    hide BranchFor;
    if claimed == [] {
      assert OnBranch(b, claimed, now, seen, branches) == {};
    } else {
      var shorter, id := claimed[..|claimed| - 1], claimed[|claimed| - 1];
      assert claimed == shorter + [id];
      TakingIsSize(b, shorter, now, seen, branches);
      OneMoreOnBranch(b, shorter, id, now, seen, branches);
      assert id !in OnBranch(b, shorter, now, seen, branches);
    }
  }

  /** The rows after a pass over `done`, and the tally that pass reports. */
  ghost predicate Swept(b: Book, after: Book, done: seq<CaseId>, now: Instant, seen: StatesRead, t: SweepTally) {
    && after == SweepRows(b, done, now, seen)
    && t == SweepTally(
              |done|, Taking(b, done, now, seen, {ScheduleIt}), Taking(b, done, now, seen, {VoidIt}),
              Taking(b, done, now, seen, {LeftRecovered, LeftWindowClosed}), |after.jobs| - |b.jobs|)
  }

  lemma TallyMeaning(b: Book, after: Book, claimed: seq<CaseId>, now: Instant, seen: StatesRead, t: SweepTally)
    requires Swept(b, after, claimed, now, seen, t) && Distinct(claimed)
    ensures TallyOnColumns(b, claimed, now, seen, t)
  {
    hide SweepRows, Taking;
    TakingIsSize(b, claimed, now, seen, {ScheduleIt});
    TakingIsSize(b, claimed, now, seen, {VoidIt});
    TakingIsSize(b, claimed, now, seen, {LeftRecovered, LeftWindowClosed});
    assert OnBranch(b, claimed, now, seen, {ScheduleIt}) == ToSchedule(b, claimed, now, seen);
    assert OnBranch(b, claimed, now, seen, {VoidIt}) == ToVoid(b, claimed, seen);
    assert OnBranch(b, claimed, now, seen, {LeftRecovered, LeftWindowClosed}) == ToSkip(b, claimed, now, seen);
  }

  lemma SweptMeaning(b: Book, after: Book, claimed: seq<CaseId>, now: Instant, seen: StatesRead, t: SweepTally)
    requires Swept(b, after, claimed, now, seen, t) && Claimable(b, claimed, now)
    ensures PassOnColumns(b, after, claimed, now, seen) && TallyOnColumns(b, claimed, now, seen, t)
    ensures t.reviews == |after.jobs| - |b.jobs|
  {
    hide SweepRows, Taking, PassOnColumns, TallyOnColumns, Due;
    PassMeaning(b, claimed, now, seen);
    TallyMeaning(b, after, claimed, now, seen, t);
  }

  function Counted(t: SweepTally, branch: Branch, jobs: int): SweepTally {
    SweepTally(
      t.considered + 1,
      t.scheduled + if branch == ScheduleIt then 1 else 0,
      t.voided + if branch == VoidIt then 1 else 0,
      t.skipped + if branch in {LeftRecovered, LeftWindowClosed} then 1 else 0,
      t.reviews + jobs)
  }

  lemma SweptNone(b: Book, now: Instant, seen: StatesRead)
    ensures Swept(b, b, [], now, seen, SweepTally(0, 0, 0, 0, 0))
  {}

  /** The next claimed row still stands as it did, and counting its branch keeps the tally right. */
  lemma SweptNext(b: Book, mid: Book, done: seq<CaseId>, now: Instant, seen: StatesRead, t: SweepTally, id: CaseId)
    requires Swept(b, mid, done, now, seen, t) && Distinct(done) && forall k :: k in done ==> k in b.promises
    requires id in b.promises && id !in done
    ensures id in mid.promises && mid.promises[id] == b.promises[id]
    ensures var after := SweepRow(mid, id, now, seen);
      Swept(b, after, done + [id], now, seen,
            Counted(t, BranchFor(b.promises[id], ReadOf(seen, id), now), |after.jobs| - |mid.jobs|))
  {
    hide BranchFor, SweepRow, RowResult, RowAsks, ReviewWaits;
    PassClosedForm(b, done, now, seen);
    assert (done + [id])[..|done|] == done;
  }

  /** A claimed row no count is kept of: already scheduled, on a live case inside its window; or without a case. */
  predicate FallsThrough(b: Book, id: CaseId, now: Instant, seen: StatesRead)
    requires id in b.promises
  {
    || id !in seen
    || (!IsTerminal(seen[id]) && now < b.promises[id].windowEnd && b.promises[id].status == FollowUpScheduled)
  }

  lemma {:induction false} FallenCount(b: Book, claimed: seq<CaseId>, now: Instant, seen: StatesRead)
    requires Claimable(b, claimed, now)
    ensures Taking(b, claimed, now, seen, {AlreadyScheduled, CaseGone}) == 0 <==>
      forall id :: id in claimed ==> id in b.promises && !FallsThrough(b, id, now, seen)
  {
    if claimed != [] {
      var n := |claimed| - 1;
      assert claimed[n] in claimed && claimed[n] in DuePromises(b, now);
      assert claimed == claimed[..n] + [claimed[n]];
      FallenCount(b, claimed[..n], now, seen);
    }
  }

  /** Considered is scheduled plus voided plus skipped exactly when no claimed row falls through. */
  lemma NothingFallsThroughIff(
    b: Book, after: Book, claimed: seq<CaseId>, now: Instant, seen: StatesRead, t: SweepTally)
    requires Claimable(b, claimed, now) && Swept(b, after, claimed, now, seen, t)
    ensures t.considered - (t.scheduled + t.voided + t.skipped) == 0 <==>
      forall id :: id in claimed ==> id in b.promises && !FallsThrough(b, id, now, seen)
  {
    hide FallsThrough, SweepRows;
    assert forall id :: id in claimed ==> id in DuePromises(b, now);
    BranchesPartition(b, claimed, now, seen);
    FallenCount(b, claimed, now, seen);
  }

  // ---- A second pass at the same instant ----

  /** A row already swept at an instant is left alone by any later pass at that instant that reads the same state. */
  lemma SweptRowIsSettled(b: Book, after: Book, claimed: seq<CaseId>, id: CaseId, now: Instant, seen: StatesRead)
    requires PassResult(b, after, claimed, now, seen) && id in claimed && id in b.promises
    ensures id in after.promises
    ensures RowResult(after, id, now, seen) == after.promises[id]
         || (id in seen && Voids(seen[id]) && after.promises[id].status == Voided)
    ensures RowAsks(after, id, now, seen) ==> ReviewWaits(after.jobs, id)
  {}

  /** A second pass at the same instant moves no promise and adds no job. */
  lemma {:induction false} SecondPassIdle(
    b: Book, after: Book, claimed: seq<CaseId>, again: seq<CaseId>, now: Instant, seen: StatesRead)
    requires PassResult(b, after, claimed, now, seen)
    requires forall id :: id in again ==> id in claimed && id in b.promises && id in DuePromises(after, now)
    ensures SweepRows(after, again, now, seen) == after
  {
    if again != [] {
      var n := |again| - 1;
      SecondPassIdle(b, after, claimed, again[..n], now, seen);
      var id := again[n];
      assert id in again;
      SweptRowIsSettled(b, after, claimed, id, now, seen);
      assert after.promises[id := after.promises[id]] == after.promises;
    }
  }

  /** A pass makes nothing due, so when the limit let it claim every due row, the next one claims only those. */
  lemma SecondPassClaimsTheSame(
    b: Book, after: Book, claimed: seq<CaseId>, again: seq<CaseId>, now: Instant, seen: StatesRead)
    requires PassResult(b, after, claimed, now, seen) && Claimable(b, claimed, now) && Claimable(after, again, now)
    requires |claimed| == |DuePromises(b, now)|
    ensures forall id :: id in again ==> id in claimed && id in b.promises
    ensures SweepRows(after, again, now, seen) == after
  {
    DistinctSize(claimed);
    var due := DuePromises(b, now);
    assert Elements(claimed) <= due;
    if exists id :: id in due && id !in Elements(claimed) {
      var id :| id in due && id !in Elements(claimed);
      SmallerWithout(Elements(claimed), due, id);
    }
    forall id | id in again ensures id in claimed && id in b.promises {
      assert id in DuePromises(after, now);
      assert id in due;
    }
    SecondPassIdle(b, after, claimed, again, now, seen);
  }

  // ---- Passes side by side ----

  /** One row evaluated by one of the passes under way. */
  datatype RowStep = RowStep(id: CaseId, now: Instant, seen: StatesRead)

  /** Passes interleaved row by row, as the locks on their rows allow. */
  function Interleaved(b: Book, steps: seq<RowStep>): Book {
    if steps == [] then b
    else
      var before, last := Interleaved(b, steps[..|steps| - 1]), steps[|steps| - 1];
      if last.id in before.promises then SweepRow(before, last.id, last.now, last.seen) else before
  }

  predicate DistinctRows(steps: seq<RowStep>) {
    forall i, j :: 0 <= i < j < |steps| ==> steps[i].id != steps[j].id
  }

  /** Evaluating a row that still stands as it did moves that row alone, by its own branch. */
  lemma RowMovesAlone(b: Book, before: Book, id: CaseId, now: Instant, seen: StatesRead)
    requires id in b.promises && id in before.promises && before.promises[id] == b.promises[id]
    ensures SweepRow(before, id, now, seen).promises == before.promises[id := RowResult(b, id, now, seen)]
  {}

  /** Passes whose claims are disjoint move each row once, as its own pass would have done alone. */
  lemma {:induction false} DisjointPassesDoNotMeet(b: Book, steps: seq<RowStep>)
    requires DistinctRows(steps) && forall i :: 0 <= i < |steps| ==> steps[i].id in b.promises
    ensures Interleaved(b, steps).promises.Keys == b.promises.Keys
    ensures forall i :: 0 <= i < |steps| ==>
      Interleaved(b, steps).promises[steps[i].id] == RowResult(b, steps[i].id, steps[i].now, steps[i].seen)
    ensures forall id :: id in b.promises && (forall i :: 0 <= i < |steps| ==> steps[i].id != id) ==>
      Interleaved(b, steps).promises[id] == b.promises[id]
  {
    hide SweepRow, RowResult;
    if steps != [] {
      var n := |steps| - 1;
      var before, last := Interleaved(b, steps[..n]), steps[n];
      DisjointPassesDoNotMeet(b, steps[..n]);
      RowMovesAlone(b, before, last.id, last.now, last.seen);
    }
  }
}
