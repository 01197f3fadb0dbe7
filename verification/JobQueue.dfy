/** The job table: enqueueing with a dedupe key, claiming, finishing and putting jobs back. */
module JobQueue {
  import opened Common

  /** Canonical text of a UUID. */
  type CaseId = string

  datatype JobState = Pending | Running | Done | DeadLetter

  datatype Job = Job(kind: string, dedupeKey: Option<string>, caseId: Option<CaseId>, state: JobState)

  predicate PendingWith(job: Job, key: string) { job.state.Pending? && job.dedupeKey == Some(key) }

  predicate HasPending(jobs: seq<Job>, key: string) { exists j :: j in jobs && PendingWith(j, key) }

  /** The partial unique index over pending jobs. */
  predicate OnePendingPerKey(jobs: seq<Job>) {
    forall i, j ::
      (0 <= i < j < |jobs| && jobs[i].state.Pending? && jobs[j].state.Pending? && jobs[i].dedupeKey.Some?)
      ==> jobs[i].dedupeKey != jobs[j].dedupeKey
  }

  /** Inserts a pending job, unless a pending job already holds its key. */
  function Enqueue(jobs: seq<Job>, job: Job): seq<Job> {
    if job.dedupeKey.Some? && HasPending(jobs, job.dedupeKey.value) then jobs
    else jobs + [job.(state := Pending)]
  }

  function InState(jobs: seq<Job>, which: set<nat>, state: JobState): seq<Job> {
    seq(|jobs|, i requires 0 <= i < |jobs| => if i in which then jobs[i].(state := state) else jobs[i])
  }

  /**
    What the workers do. A worker settles the job it claimed without looking at the state the row is in by
    then; a failed attempt settles it as pending again. Reclaiming reads the stale running jobs without locking
    them and returns them all at once, whatever has become of them since the read.
  */
  datatype QueueEvent =
    | Enqueued(job: Job)
    | Claimed(i: nat)
    | Settled(i: nat, outcome: JobState)
    | Reclaimed(which: set<nat>)

  /** The index refuses a whole transaction that would leave two pending jobs under one key. */
  function QueueStep(jobs: seq<Job>, e: QueueEvent): seq<Job> {
    match e
    case Enqueued(job) => Enqueue(jobs, job)
    case Claimed(i) => if i < |jobs| && jobs[i].state.Pending? then InState(jobs, {i}, Running) else jobs
    case Settled(i, outcome) =>
      if i < |jobs| && !outcome.Running? && OnePendingPerKey(InState(jobs, {i}, outcome))
      then InState(jobs, {i}, outcome) else jobs
    case Reclaimed(which) =>
      if InTable(jobs, which) && OnePendingPerKey(InState(jobs, which, Pending))
      then InState(jobs, which, Pending) else jobs
  }

  predicate InTable(jobs: seq<Job>, which: set<nat>) { forall i :: i in which ==> i < |jobs| }

  /** What a reclaim reads: jobs that are running. */
  predicate AllRunning(jobs: seq<Job>, which: set<nat>) {
    forall i :: i in which ==> i < |jobs| && jobs[i].state.Running?
  }

  function QueueRun(jobs: seq<Job>, run: seq<QueueEvent>): seq<Job> {
    if run == [] then jobs else QueueStep(QueueRun(jobs, run[..|run| - 1]), run[|run| - 1])
  }

  lemma QueueStepKeepsIndex(jobs: seq<Job>, e: QueueEvent)
    requires OnePendingPerKey(jobs)
    ensures OnePendingPerKey(QueueStep(jobs, e))
  {
    match e
    case Enqueued(job) =>
      if job.dedupeKey.Some? && !HasPending(jobs, job.dedupeKey.value) {
        forall j | 0 <= j < |jobs| ensures !PendingWith(jobs[j], job.dedupeKey.value) {
          assert jobs[j] in jobs;
        }
      }
    case _ =>
  }

  /** Whatever mix of triggers, workers and retries runs, a key never has two pending jobs. */
  lemma {:induction false} AtMostOnePending(run: seq<QueueEvent>)
    ensures OnePendingPerKey(QueueRun([], run))
  {
    if run != [] {
      AtMostOnePending(run[..|run| - 1]);
      QueueStepKeepsIndex(QueueRun([], run[..|run| - 1]), run[|run| - 1]);
    }
  }

  /**
    What can become of a job: only a claim sets it running, and only from pending; only its worker finishes it; only
    a failed attempt or a reclaim makes it pending again. What it is for never changes, and only an enqueue adds one.
  */
  lemma JobsMoveOnlySo(jobs: seq<Job>, e: QueueEvent)
    ensures var after := QueueStep(jobs, e);
      && |after| >= |jobs|
      && (forall i: nat :: i < |jobs| ==>
            && after[i].kind == jobs[i].kind && after[i].dedupeKey == jobs[i].dedupeKey
            && after[i].caseId == jobs[i].caseId
            && (after[i].state == jobs[i].state
                || (after[i].state == Running && jobs[i].state == Pending && e == Claimed(i))
                || (after[i].state in {Done, DeadLetter} && e == Settled(i, after[i].state))
                || (after[i].state == Pending && (e == Settled(i, Pending) || (e.Reclaimed? && i in e.which)))))
      && (|after| > |jobs| ==>
            e.Enqueued? && after == jobs + [e.job.(state := Pending)]
            && (e.job.dedupeKey.Some? ==> NonePending(jobs, e.job.dedupeKey.value)))
      && (e.Claimed? && e.i < |jobs| && jobs[e.i].state == Pending ==> after[e.i].state == Running)
  {}

  /** No two of these jobs share a key, and no other job is pending under a key of theirs. */
  predicate KeysFree(jobs: seq<Job>, which: set<nat>)
    requires InTable(jobs, which)
  {
    && (forall i, j :: i in which && j in which && i < j && jobs[i].dedupeKey.Some? ==>
          jobs[i].dedupeKey != jobs[j].dedupeKey)
    && (forall i, j :: i in which && 0 <= j < |jobs| && j !in which && jobs[i].dedupeKey.Some? ==>
          !PendingWith(jobs[j], jobs[i].dedupeKey.value))
  }

  /**
    The jobs a reclaim read go back to pending all together, exactly when all their keys are free at its commit,
    whatever state the jobs are in by then; otherwise none does.
  */
  lemma ReclaimLandsIff(jobs: seq<Job>, which: set<nat>)
    requires OnePendingPerKey(jobs) && InTable(jobs, which)
    ensures QueueStep(jobs, Reclaimed(which)) == if KeysFree(jobs, which) then InState(jobs, which, Pending) else jobs
  {
    var back := InState(jobs, which, Pending);
    if KeysFree(jobs, which) {
      assert OnePendingPerKey(back);
    } else if i, j :| i in which && 0 <= j < |jobs| && j !in which && jobs[i].dedupeKey.Some?
                      && PendingWith(jobs[j], jobs[i].dedupeKey.value) {
      assert back[i].state.Pending? && back[j] == jobs[j] && i != j;
    } else {
      var i, j :| i in which && j in which && i < j
        && jobs[i].dedupeKey.Some? && jobs[i].dedupeKey == jobs[j].dedupeKey;
      assert back[i].state.Pending? && back[j].state.Pending?;
    }
  }

  /** A failed attempt puts its job back exactly when no other pending job holds its key. */
  lemma RetryLandsIff(jobs: seq<Job>, i: nat)
    requires OnePendingPerKey(jobs) && i < |jobs|
    ensures QueueStep(jobs, Settled(i, Pending))[i].state.Pending? <==>
      forall j :: 0 <= j < |jobs| && j != i && jobs[i].dedupeKey.Some? ==>
        !PendingWith(jobs[j], jobs[i].dedupeKey.value)
  {
    var back := InState(jobs, {i}, Pending);
    if j :| 0 <= j < |jobs| && j != i && jobs[i].dedupeKey.Some? && PendingWith(jobs[j], jobs[i].dedupeKey.value) {
      assert back[i].state.Pending? && back[j] == jobs[j];
    } else {
      assert OnePendingPerKey(back);
    }
  }

  /** Two queued jobs under two keys, both claimed, and one of the keys queued again. */
  const ONE_KEY_TAKEN: seq<QueueEvent> := [
    Enqueued(Keyed("a")), Enqueued(Keyed("b")), Claimed(0), Claimed(1), Enqueued(Keyed("b"))
  ]

  /** One key queued and claimed twice. */
  const ONE_KEY_TWICE: seq<QueueEvent> := [Enqueued(Keyed("a")), Claimed(0), Enqueued(Keyed("a")), Claimed(1)]

  function Keyed(key: string): Job { Job("case_review", Some(key), None, Pending) }

  /** A run reaches the last of a chain of job tables when each of its steps leads from one to the next. */
  lemma {:induction false} RunReaches(run: seq<QueueEvent>, tables: seq<seq<Job>>)
    requires |tables| == |run| + 1 && tables[0] == []
    requires forall k :: 0 <= k < |run| ==> QueueStep(tables[k], run[k]) == tables[k + 1]
    ensures QueueRun([], run) == tables[|run|]
  {
    if run != [] { RunReaches(run[..|run| - 1], tables[..|run|]); }
  }

  /** A job whose own key is free stays running because another stale job's key is taken. */
  lemma ReclaimHeldUpByAnother()
    ensures var jobs := QueueRun([], ONE_KEY_TAKEN);
      && |jobs| == 3 && AllRunning(jobs, {0, 1}) && jobs[0].dedupeKey == Some("a") && !HasPending(jobs, "a")
      && QueueStep(jobs, Reclaimed({0, 1})) == jobs
  {
    var a, b := Keyed("a"), Keyed("b");
    var runningA, runningB := a.(state := Running), b.(state := Running);
    var jobs := [runningA, runningB, b];
    assert QueueStep([a, b], Claimed(0)) == [runningA, b];
    assert QueueStep([runningA, b], Claimed(1)) == [runningA, runningB];
    RunReaches(ONE_KEY_TAKEN, [[], [a], [a, b], [runningA, b], [runningA, runningB], jobs]);
    AtMostOnePending(ONE_KEY_TAKEN);
    assert PendingWith(jobs[2], "b");
    ReclaimLandsIff(jobs, {0, 1});
  }

  /** Two running jobs can hold one key, and then neither goes back though the key is not pending. */
  lemma ReclaimHeldUpByTwin()
    ensures var jobs := QueueRun([], ONE_KEY_TWICE);
      && |jobs| == 2 && AllRunning(jobs, {0, 1}) && !HasPending(jobs, "a")
      && QueueStep(jobs, Reclaimed({0, 1})) == jobs
  {
    var a := Keyed("a");
    var running := a.(state := Running);
    var jobs := [running, running];
    assert QueueStep([running, a], Claimed(1)) == jobs;
    RunReaches(ONE_KEY_TWICE, [[], [a], [running], [running, a], jobs]);
    AtMostOnePending(ONE_KEY_TWICE);
    ReclaimLandsIff(jobs, {0, 1});
  }

  /** Reclaimed from a slow worker, done by a second one, and then failed by the first: the job is pending again. */
  const DONE_THEN_FAILED: seq<QueueEvent> := [
    Enqueued(Keyed("a")), Claimed(0), Reclaimed({0}), Claimed(0), Settled(0, Done), Settled(0, Pending)
  ]

  lemma DoneJobsCanReturn()
    ensures QueueRun([], DONE_THEN_FAILED[..5]) == [Keyed("a").(state := Done)]
    ensures QueueRun([], DONE_THEN_FAILED) == [Keyed("a")]
  {
    var a := Keyed("a");
    var running, done := a.(state := Running), a.(state := Done);
    RunReaches(DONE_THEN_FAILED[..5], [[], [a], [running], [a], [running], [done]]);
    RunReaches(DONE_THEN_FAILED, [[], [a], [running], [a], [running], [done], [a]]);
  }

  /** Read as stale by a reclaim, done by its worker, and only then written back: the job is pending again. */
  const DONE_THEN_RECLAIMED: seq<QueueEvent> := [
    Enqueued(Keyed("a")), Claimed(0), Settled(0, Done), Reclaimed({0})
  ]

  /** The reclaim reads the job while it runs, and no lock keeps the worker from finishing before it writes. */
  lemma DoneJobsCanBeReclaimed()
    ensures AllRunning(QueueRun([], DONE_THEN_RECLAIMED[..2]), {0})
    ensures QueueRun([], DONE_THEN_RECLAIMED[..3]) == [Keyed("a").(state := Done)]
    ensures QueueRun([], DONE_THEN_RECLAIMED) == [Keyed("a")]
  {
    var a := Keyed("a");
    var running, done := a.(state := Running), a.(state := Done);
    RunReaches(DONE_THEN_RECLAIMED[..2], [[], [a], [running]]);
    RunReaches(DONE_THEN_RECLAIMED[..3], [[], [a], [running], [done]]);
    RunReaches(DONE_THEN_RECLAIMED, [[], [a], [running], [done], [a]]);
  }

  // ---- Dedupe keys ----

  const CASE_REVIEW_KIND := "case_review"
  const PROMISE_ESCALATION_KIND := "promise_escalation"

  function CaseKey(kind: string, id: CaseId): string { kind + ":" + id }

  function ReviewJob(id: CaseId): Job { Job(CASE_REVIEW_KIND, Some(CaseKey(CASE_REVIEW_KIND, id)), Some(id), Pending) }

  predicate ReviewWaits(jobs: seq<Job>, id: CaseId) { HasPending(jobs, CaseKey(CASE_REVIEW_KIND, id)) }

  predicate NonePending(jobs: seq<Job>, key: string) {
    forall job :: job in jobs && job.state.Pending? ==> job.dedupeKey != Some(key)
  }

  /** A review's job and its key, spelled out. */
  lemma ReviewKeyText(jobs: seq<Job>, id: CaseId)
    ensures ReviewJob(id) == Job("case_review", Some("case_review:" + id), Some(id), Pending)
    ensures ReviewWaits(jobs, id) <==> !NonePending(jobs, "case_review:" + id)
  {
    assert CaseKey(CASE_REVIEW_KIND, id) == "case_review:" + id;
  }

  /** Queueing a case's review leaves one pending, touches no other case's, and adds a job only if none was. */
  lemma EnqueueingReview(jobs: seq<Job>, id: CaseId)
    ensures var after := Enqueue(jobs, ReviewJob(id));
      && ReviewWaits(after, id)
      && (forall other: CaseId :: other != id ==> (ReviewWaits(after, other) <==> ReviewWaits(jobs, other)))
      && after == (if ReviewWaits(jobs, id) then jobs else jobs + [ReviewJob(id)])
  {
    var after, key := Enqueue(jobs, ReviewJob(id)), CaseKey(CASE_REVIEW_KIND, id);
    if !ReviewWaits(jobs, id) {
      assert after[|jobs|] == ReviewJob(id) && PendingWith(after[|jobs|], key);
      forall other: CaseId | other != id ensures ReviewWaits(after, other) <==> ReviewWaits(jobs, other) {
        var otherKey := CaseKey(CASE_REVIEW_KIND, other);
        assert key[|CASE_REVIEW_KIND| + 1..] == id && otherKey[|CASE_REVIEW_KIND| + 1..] == other;
        assert forall j :: PendingWith(j, otherKey) ==> j != ReviewJob(id);
        assert forall j :: j in after <==> j in jobs || j == ReviewJob(id);
      }
    }
  }

  /** The key of a periodic sweep: its kind, the merchant, and the interval bucket. */
  function SweepKey(kind: string, merchant: string, bucket: string): string {
    kind + ":" + merchant + ":" + bucket
  }

  /** A UUID's text has no colon in it; neither has a job kind. */
  predicate NoColon(s: string) { ':' !in s }

  /** A per-case key names its kind and its case, and is never the key of a periodic sweep. */
  lemma KeysNeverCollide(k1: string, id1: CaseId, k2: string, id2: CaseId, merchant: string, bucket: string)
    requires NoColon(k1) && NoColon(k2) && NoColon(id1) && NoColon(id2)
    ensures CaseKey(k1, id1) == CaseKey(k2, id2) ==> k1 == k2 && id1 == id2
    ensures CaseKey(k1, id1) != SweepKey(k2, merchant, bucket)
  {
    if CaseKey(k1, id1) == CaseKey(k2, id2) { SplitAtColon(k1, id1, k2, id2); }
    var rest := merchant + ":" + bucket;
    assert SweepKey(k2, merchant, bucket) == k2 + ":" + rest;
    assert rest[|merchant|] == ':' && ':' in rest;
    if CaseKey(k1, id1) == SweepKey(k2, merchant, bucket) { SplitAtColon(k1, id1, k2, rest); }
  }

  lemma SplitAtColon(a: string, b: string, c: string, d: string)
    requires NoColon(a) && NoColon(c) && a + ":" + b == c + ":" + d
    ensures a == c && b == d
  {
    var s := a + ":" + b;
    assert s[|a|] == ':' && s[|c|] == ':';
    assert forall i :: 0 <= i < |a| ==> s[i] == a[i] && a[i] in a;
    assert forall i :: 0 <= i < |c| ==> s[i] == c[i] && c[i] in c;
    assert s[..|a|] == a && s[..|c|] == c;
    assert s[|a| + 1..] == b && s[|c| + 1..] == d;
  }
}
