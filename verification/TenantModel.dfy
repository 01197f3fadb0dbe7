/** One merchant's committed rows, and the history of transactions that produced them. */
module TenantModel {
  import opened CaseModel
  import opened CaseInvariants
  import opened CaseRuns
  import opened JobQueue

  datatype Tenant = Tenant(files: map<CaseId, CaseFile>, jobs: seq<Job>)

  /** One transaction's effect: on one case, or on the job table. */
  datatype Commit =
    | OnCase(id: CaseId, moment: Moment)
    | OnQueue(event: QueueEvent)

  predicate WellFormedCommit(c: Commit) { c.OnCase? ==> WellFormed(c.moment) }

  predicate WellFormedHistory(h: seq<Commit>) { forall c :: c in h ==> WellFormedCommit(c) }

  function Apply(t: Tenant, c: Commit): Tenant {
    match c
    case OnCase(id, moment) => if id in t.files then t.(files := t.files[id := Step(t.files[id], moment)]) else t
    case OnQueue(event) => t.(jobs := QueueStep(t.jobs, event))
  }

  function RunAll(t: Tenant, h: seq<Commit>): Tenant {
    if h == [] then t else Apply(RunAll(t, h[..|h| - 1]), h[|h| - 1])
  }

  ghost predicate ValidTenant(t: Tenant) {
    (forall id :: id in t.files ==> Invariant(t.files[id])) && OnePendingPerKey(t.jobs)
  }

  lemma RunOneMore(t: Tenant, h: seq<Commit>, c: Commit)
    ensures RunAll(t, h + [c]) == Apply(RunAll(t, h), c)
  {
    assert (h + [c])[..|h|] == h;
  }

  lemma {:induction false} RunConcat(t: Tenant, h: seq<Commit>, k: seq<Commit>)
    ensures RunAll(t, h + k) == RunAll(RunAll(t, h), k)
  {
    if k == [] {
      assert h + k == h;
    } else {
      var shorter := k[..|k| - 1];
      RunConcat(t, h, shorter);
      assert h + k == (h + shorter) + [k[|k| - 1]];
      RunOneMore(t, h + shorter, k[|k| - 1]);
    }
  }

  /** Any history of any components keeps every case's invariant and the queue's index. */
  lemma {:induction false} HistoryKeepsValid(t: Tenant, h: seq<Commit>)
    requires ValidTenant(t) && WellFormedHistory(h)
    ensures ValidTenant(RunAll(t, h)) && RunAll(t, h).files.Keys == t.files.Keys
  {
    hide Invariant, Step, QueueStep;
    if h != [] {
      var before, c := RunAll(t, h[..|h| - 1]), h[|h| - 1];
      HistoryKeepsValid(t, h[..|h| - 1]);
      assert c in h;
      match c
      case OnCase(id, moment) => if id in before.files { StepKeepsInvariant(before.files[id], moment); }
      case OnQueue(event) => QueueStepKeepsIndex(before.jobs, event);
    }
  }

  /** What a history did to one case, as that case's own run. */
  function MomentsOf(h: seq<Commit>, id: CaseId): seq<Moment> {
    if h == [] then []
    else
      var c := h[|h| - 1];
      MomentsOf(h[..|h| - 1], id) + if c.OnCase? && c.id == id then [c.moment] else []
  }

  lemma {:induction false} AtPrefix(f: CaseFile, run: seq<Moment>, more: seq<Moment>, k: nat)
    requires k <= |run|
    ensures At(f, run + more, k) == At(f, run, k)
  {
    if k > 0 { AtPrefix(f, run, more, k - 1); }
  }

  /** Every case of a tenant goes through a run of its own, so what holds of all runs holds of it. */
  lemma {:induction false} CaseGoesThroughItsRun(t: Tenant, h: seq<Commit>, id: CaseId)
    requires id in t.files && WellFormedHistory(h)
    ensures id in RunAll(t, h).files && WellFormedRun(MomentsOf(h, id))
    ensures RunAll(t, h).files[id] == At(t.files[id], MomentsOf(h, id), |MomentsOf(h, id)|)
  {
    hide Step, QueueStep;
    if h != [] {
      var c := h[|h| - 1];
      CaseGoesThroughItsRun(t, h[..|h| - 1], id);
      assert c in h;
      var run := MomentsOf(h[..|h| - 1], id);
      if c.OnCase? && c.id == id {
        AtPrefix(t.files[id], run, [c.moment], |run|);
        assert MomentsOf(h, id) == run + [c.moment];
      } else {
        assert MomentsOf(h, id) == run;
      }
    }
  }

  /** A version that has not moved means nothing a transition writes has moved, whoever else was at work. */
  lemma UnmovedMeansUnchanged(t: Tenant, h: seq<Commit>, id: CaseId)
    requires ValidTenant(t) && WellFormedHistory(h) && id in t.files
    ensures id in RunAll(t, h).files
    ensures var before, after := t.files[id], RunAll(t, h).files[id];
      NeverFalls(before, after) && (before.row.version == after.row.version ==> SameLifecycle(before.row, after.row))
  {
    CaseGoesThroughItsRun(t, h, id);
    RunFacts(t.files[id], MomentsOf(h, id), 0, |MomentsOf(h, id)|);
  }

  // ---- What a sweep does, read off the history ----

  /** The commit at position p of a history was a transition, and it was applied. */
  predicate AppliedPosition(t: Tenant, h: seq<Commit>, p: nat)
    requires p < |h|
  {
    h[p].OnCase? && h[p].id in RunAll(t, h[..p]).files
    && AppliedBy(RunAll(t, h[..p]).files[h[p].id], h[p].moment)
  }

  predicate Within(positions: seq<nat>, n: nat) {
    forall i :: 0 <= i < |positions| ==> positions[i] < n
  }

  /** How many of the chosen positions were applied. */
  function CountApplied(t: Tenant, h: seq<Commit>, positions: seq<nat>): nat
    requires Within(positions, |h|)
  {
    if positions == [] then 0
    else
      CountApplied(t, h, positions[..|positions| - 1])
      + if AppliedPosition(t, h, positions[|positions| - 1]) then 1 else 0
  }

  /** Later commits do not change what was applied before them. */
  lemma {:induction false} CountStable(t: Tenant, h: seq<Commit>, more: seq<Commit>, positions: seq<nat>)
    requires Within(positions, |h|)
    ensures CountApplied(t, h + more, positions) == CountApplied(t, h, positions)
  {
    hide RunAll, AppliedBy;
    if positions != [] {
      CountStable(t, h, more, positions[..|positions| - 1]);
      var last := positions[|positions| - 1];
      assert (h + more)[..last] == h[..last];
    }
  }
}
