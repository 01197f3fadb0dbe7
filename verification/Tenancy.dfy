/** The sweeps and the two-phase transition, run against a database that other sessions are also writing. */
module Tenancy {
  import opened Common
  import opened Transitions
  import opened CaseModel
  import opened CaseInvariants
  import opened CaseManager
  import opened CaseRuns
  import opened JobQueue
  import opened TenantModel
  import opened Oldest
  import opened Reentry
  import opened Sweeps

  /** What other sessions commit, and how long it takes, between two transactions of this one. */
  datatype Slice = Slice(elapsed: nat, commits: seq<Commit>)

  datatype ApplyOutcome = Answered(outcome: TransitionOutcome) | CaseMissing

  class Database {
    var clock: Instant
    var files: map<CaseId, CaseFile>
    var jobs: seq<Job>
    var schedule: seq<Slice>
    ghost var history: seq<Commit>

    function Rows(): Tenant reads this { Tenant(files, jobs) }

    ghost predicate Valid() reads this {
      ValidTenant(Rows()) && forall i :: 0 <= i < |schedule| ==> WellFormedHistory(schedule[i].commits)
    }

    /** The rows are what the transactions since an earlier point made of the rows at that point. */
    ghost predicate Follows(before: Tenant, earlier: seq<Commit>) reads this {
      Led(before, earlier, Rows(), history)
    }

    constructor (rows: Tenant, now: Instant, others: seq<Slice>)
      requires ValidTenant(rows) && forall i :: 0 <= i < |others| ==> WellFormedHistory(others[i].commits)
      ensures Valid() && Rows() == rows && clock == now && schedule == others && history == []
    {
      clock, files, jobs, schedule, history := now, rows.files, rows.jobs, others, [];
    }

    /** Between two transactions of this session, whatever the others had in hand. */
    method Yield()
      requires Valid()
      modifies this
      ensures Valid() && files.Keys == old(files).Keys
      ensures old(schedule) == [] ==>
        Rows() == old(Rows()) && history == old(history) && clock == old(clock) && schedule == []
      ensures old(schedule) != [] ==>
        && Rows() == RunAll(old(Rows()), old(schedule)[0].commits)
        && history == old(history) + old(schedule)[0].commits
        && clock == old(clock) + old(schedule)[0].elapsed && schedule == old(schedule)[1..]
      ensures Follows(old(Rows()), old(history))
    {
      if schedule == [] {
        LedSelf(Rows(), history);
        return;
      }
      var slice := schedule[0];
      HistoryKeepsValid(Rows(), slice.commits);
      var rows := RunAll(Rows(), slice.commits);
      assert (history + slice.commits)[|history|..] == slice.commits;
      files, jobs, clock := rows.files, rows.jobs, clock + slice.elapsed;
      history := history + slice.commits;
      schedule := schedule[1..];
    }

    /** Ends one transaction on a locked case: its rows are written back unless the schema refuses them. */
    method Commit(id: CaseId, locked: RecoveryCase, ok: bool, ghost moment: Moment) returns (committed: bool)
      requires Valid() && id in files && WellFormed(moment)
      requires Step(files[id], moment) == if ok && Storable(locked.File()) then locked.File() else files[id]
      modifies this
      ensures Valid() && clock == old(clock) && schedule == old(schedule) && files.Keys == old(files).Keys
      ensures committed <==> ok && Storable(locked.File())
      ensures history == old(history) + [OnCase(id, moment)]
      ensures Rows() == Apply(old(Rows()), OnCase(id, moment))
      ensures Follows(old(Rows()), old(history))
    {
      hide Step, Invariant, Storable;
      StepKeepsInvariant(files[id], moment);
      ghost var before, c := Rows(), OnCase(id, moment);
      committed := ok && Storable(locked.File());
      if committed { files := files[id := locked.File()]; }
      assert Rows().files == before.files[id := Step(before.files[id], moment)];
      LedOne(before, history, c);
      history := history + [c];
    }

    // ---- The two-phase transition ----

    /** Phase one: the attempt, under the row lock, in its own transaction. */
    method Attempted(id: CaseId, a: Attempt) returns (committed: bool, rejection: Option<Rejection>)
      requires Valid() && id in files && Fits(a)
      modifies this
      ensures Valid() && clock == old(clock) && schedule == old(schedule) && files.Keys == old(files).Keys
      ensures history == old(history) + [OnCase(id, Moment(old(clock), Transition(a)))]
      ensures Rows() == Apply(old(Rows()), OnCase(id, Moment(old(clock), Transition(a))))
      ensures Follows(old(Rows()), old(history))
      ensures match Transact(old(files)[id], a, old(clock)).1
              case Rejected(refusal) => rejection == Some(refusal) && Rows() == old(Rows())
              case verdict => rejection.None? && (committed <==> verdict.Applied?)
    {
      hide RuleFor, Moved, AfterSuccess, RunAll, LogAgrees, ColumnsAgree, TokensAgree, Refused, Follows;
      var locked := new RecoveryCase(files[id]);
      var result;
      result, rejection := locked.ApplyLockedTransition(a, clock);
      var ok := true;
      if rejection.None? { ok := locked.RunOnSuccess(a, clock); }
      committed := Commit(id, locked, ok, Moment(clock, Transition(a)));
      if rejection.Some? { assert files == old(files); }
    }

    /** Phase two: the refusal goes on record in a transaction of its own, whatever happened in between. */
    method RecordRefusal(id: CaseId, rejection: Rejection, actor: string) returns (committed: bool)
      requires Valid() && id in files
      modifies this
      ensures Valid() && clock == old(clock) && schedule == old(schedule) && files.Keys == old(files).Keys
      ensures history == old(history) + [OnCase(id, Moment(old(clock), RecordRejection(rejection, actor)))]
      ensures Rows() == Apply(old(Rows()), OnCase(id, Moment(old(clock), RecordRejection(rejection, actor))))
      ensures Follows(old(Rows()), old(history))
      ensures committed <==> old(files)[id].row.auditSeq != AUDIT_CEILING
      ensures !committed ==> id in files && files[id] == old(files)[id]
      ensures committed ==>
        id in files && files[id] == Append(old(files)[id], RejectionEntry(rejection, actor, old(clock)))
    {
      hide RunAll, LogAgrees, Follows;
      var locked := new RecoveryCase(files[id]);
      locked.WriteForCase(RejectionEntry(rejection, actor, clock));
      committed := Commit(id, locked, true, Moment(clock, RecordRejection(rejection, actor)));
    }

    /**
      One attempted transition. Refused attempts change nothing themselves; between the refusal and its
      record the row is unlocked, so other sessions may run, and the record lands after theirs.
    */
    method ApplyTransition(id: CaseId, a: Attempt) returns (r: Result<ApplyOutcome>)
      requires Valid() && Fits(a)
      modifies this
      ensures Valid() && Follows(old(Rows()), old(history)) && clock >= old(clock)
      ensures files.Keys == old(files).Keys && (r == Success(CaseMissing) <==> id !in old(files))
      ensures id !in old(files) ==> Rows() == old(Rows()) && history == old(history) && schedule == old(schedule)
      ensures id in old(files) ==>
        var attempt := OnCase(id, Moment(old(clock), Transition(a)));
        match Transact(old(files)[id], a, old(clock)).1
        case Rejected(rejection) =>
          var between := if old(schedule) == [] then [] else old(schedule)[0].commits;
          var record := OnCase(id, Moment(clock, RecordRejection(rejection, a.actor)));
          && history == old(history) + [attempt] + between + [record]
          && schedule == (if old(schedule) == [] then [] else old(schedule)[1..])
          && (r == Raised || r == Success(Answered(OutcomeOf(rejection.refusal))))
          && (r == Raised ==> id in files && files[id].row.auditSeq == AUDIT_CEILING)
        case verdict =>
          && history == old(history) + [attempt] && schedule == old(schedule) && clock == old(clock)
          && Rows() == Apply(old(Rows()), attempt)
          && r == (if verdict.Applied? then Success(Answered(APPLIED)) else Raised)
      ensures id in old(files) && r.Success? && r != Success(Answered(APPLIED)) ==>
        var met := old(files)[id].row;
        && r == Success(Answered(if met.version != a.expectedVersion then VERSION_CONFLICT
                                 else if RuleFor(met.state, a.target).None? then ILLEGAL else CAPTURE_NOT_VERIFIED))
        && id in files && |files[id].log| > 0
        && RefusalOnRecord(met, a, files[id].log[|files[id].log| - 1].entry, clock)
    {
      hide Transact, Refused, Apply, RunAll, LogAgrees, ColumnsAgree, TokensAgree, Led, RejectionEntry, RuleFor;
      hide RefusalOnRecord;
      if id !in files {
        LedSelf(Rows(), history);
        return Success(CaseMissing);
      }
      ghost var rows, start := Rows(), history;
      var committed, rejection := Attempted(id, a);
      if rejection.None? {
        return if committed then Success(Answered(APPLIED)) else Raised;
      }
      ghost var mid, h1 := Rows(), history;
      Yield();
      LedOn(rows, start, mid, h1, Rows(), history);
      ghost var late, h2 := Rows(), history;
      committed := RecordRefusal(id, rejection.value, a.actor);
      LedOn(rows, start, late, h2, Rows(), history);
      RefusedBy(rows.files[id], a, old(clock));
      RefusalIsRecorded(rows.files[id].row, a, clock);
      return if committed then Success(Answered(OutcomeOf(rejection.value.refusal))) else Raised;
    }

    /**
      A transition decided on rows read in an earlier transaction, attempted after whatever the others did since.
      `p` is where in the history, since the start of the call, the attempt stands.
    */
    method ActLater(id: CaseId, a: Attempt) returns (r: Result<ApplyOutcome>, ghost p: nat)
      requires Valid() && id in files && Fits(a)
      modifies this
      ensures Valid() && Follows(old(Rows()), old(history)) && clock >= old(clock) && files.Keys == old(files).Keys
      ensures var since := history[|old(history)|..];
        && p < |since| && since[p].OnCase? && since[p].id == id && since[p].moment.now >= old(clock)
        && since[p].moment.event == Transition(a)
        && (r == Success(Answered(APPLIED)) <==> AppliedPosition(old(Rows()), since, p))
      ensures r != Success(CaseMissing)
      ensures old(schedule) == [] && !Transact(old(files)[id], a, old(clock)).1.Rejected? ==>
        && schedule == [] && clock == old(clock)
        && r == (if Transact(old(files)[id], a, clock).1.Applied? then Success(Answered(APPLIED)) else Raised)
        && Rows() == Apply(old(Rows()), OnCase(id, Moment(clock, Transition(a))))
    {
      hide Transact, Apply, RunAll, Invariant;
      ghost var rows, start := Rows(), history;
      Yield();
      ghost var mid, h1 := Rows(), history;
      p := |h1| - |start|;
      r := ApplyTransition(id, a);
      LedOn(rows, start, mid, h1, Rows(), history);
      assert history[|start|..][..p] == h1[|start|..];
    }

    // ---- Human ownership ----

    /** Takes a case for a person. The column and its record commit together, or neither does. */
    method AssignOwner(id: CaseId, user: UserId) returns (r: Result<OwnershipOutcome>)
      requires Valid()
      modifies this
      ensures Valid() && clock == old(clock) && schedule == old(schedule) && Follows(old(Rows()), old(history))
      ensures r == Success(CaseNotFound) <==> id !in old(files)
      ensures id in old(files) ==>
        var before := old(files)[id].row;
        && Rows() == Apply(old(Rows()), OnCase(id, Moment(clock, Assign(user))))
        && r in {Success(CaseIsTerminal), Success(AlreadyOwned), Success(Assigned), Raised}
        && (r == Success(CaseIsTerminal) <==> IsTerminal(before.state))
        && (r == Success(AlreadyOwned) <==>
              !IsTerminal(before.state) && before.owner.Some? && before.owner != Some(user))
        && (r == Raised <==> !IsTerminal(before.state) && before.owner.None? && before.auditSeq == AUDIT_CEILING)
        && (r == Success(Assigned) <==>
              !IsTerminal(before.state)
              && (before.owner == Some(user) || (before.owner.None? && before.auditSeq < AUDIT_CEILING)))
        && (r != Success(Assigned) || before.owner.Some? ==> Rows() == old(Rows()))
        && (r == Success(Assigned) ==> id in files && files[id].row.owner == Some(user))
        && (r == Success(Assigned) && before.owner.None? ==>
              && files[id].row
                   == before.(owner := Some(user), assignedAt := Some(clock), auditSeq := before.auditSeq + 1)
              && files[id].log == old(files)[id].log
                   + [AuditRecord(before.auditSeq + 1, AuditEntry(HumanOwnerAssigned, "merchant_user", None, None, None,
                                                                  Some(user), "", 0, clock))])
    {
      hide RunAll, Invariant, Led, RuleFor, Storable, OnePendingPerKey;
      LedSelf(Rows(), history);
      if id !in files { return Success(CaseNotFound); }
      OwnershipCommits(files[id], user, clock);
      var locked := new RecoveryCase(files[id]);
      var outcome, _ := locked.TakeOwnership(user, clock);
      var committed := Commit(id, locked, true, Moment(clock, Assign(user)));
      if !committed { assert files == old(files); }
      return if committed then Success(outcome) else Raised;
    }

    /** Gives a case back to automation; any user may, whoever took it. */
    method ReleaseOwner(id: CaseId, user: UserId) returns (r: Result<OwnershipOutcome>)
      requires Valid()
      modifies this
      ensures Valid() && clock == old(clock) && schedule == old(schedule) && Follows(old(Rows()), old(history))
      ensures r == Success(CaseNotFound) <==> id !in old(files)
      ensures id in old(files) ==>
        var before := old(files)[id].row;
        && Rows() == Apply(old(Rows()), OnCase(id, Moment(clock, Release(user))))
        && r in {Success(NotOwned), Success(Released), Raised}
        && (r == Success(NotOwned) <==> before.owner.None?)
        && (r == Raised <==> before.owner.Some? && before.auditSeq == AUDIT_CEILING)
        && (r == Success(Released) <==> before.owner.Some? && before.auditSeq < AUDIT_CEILING)
        && (r != Success(Released) ==> Rows() == old(Rows()))
        && (r == Success(Released) ==>
              && id in files
              && files[id].row == before.(owner := None, assignedAt := None, auditSeq := before.auditSeq + 1)
              && files[id].log == old(files)[id].log
                   + [AuditRecord(before.auditSeq + 1, AuditEntry(HumanOwnerReleased, "merchant_user", None, None, None,
                                                                  Some(user), "", 0, clock))])
    {
      hide RunAll, Invariant, Led, RuleFor, Storable, OnePendingPerKey;
      LedSelf(Rows(), history);
      if id !in files { return Success(CaseNotFound); }
      OwnershipCommits(files[id], user, clock);
      var locked := new RecoveryCase(files[id]);
      var outcome := locked.GiveBack(user, clock);
      var committed := Commit(id, locked, true, Moment(clock, Release(user)));
      if !committed { assert files == old(files); }
      return if committed then Success(outcome) else Raised;
    }

    // ---- The expiry sweep ----

    /** One expiry of the batch; `p` is where in the history, since the start of the call, it was attempted. */
    method ExpireOne(id: CaseId, version: int, hooks: Hooks) returns (r: Result<bool>, ghost p: nat)
      requires Valid() && id in files
      modifies this
      ensures Valid() && Follows(old(Rows()), old(history)) && clock >= old(clock)
      ensures files.Keys == old(files).Keys
      ensures var since := history[|old(history)|..];
        && p < |since| && since[p].OnCase? && since[p].id == id && since[p].moment.now >= old(clock)
        && since[p].moment.event == Transition(ExpiryAttempt(version, HookOf(hooks, id)))
        && (r.Success? ==> (r.value <==> AppliedPosition(old(Rows()), since, p)))
      ensures old(schedule) == [] && version == old(files)[id].row.version && !IsTerminal(old(files)[id].row.state) ==>
        && schedule == [] && clock == old(clock)
        && r == (if Stuck(old(Rows()), id, hooks) then Raised else Success(true))
        && var attempt := Transition(ExpiryAttempt(version, HookOf(hooks, id)));
        && Rows() == Apply(old(Rows()), OnCase(id, Moment(clock, attempt)))
    {
      hide Transact, Apply, RunAll, Invariant, AppliedPosition, Led;
      if !IsTerminal(files[id].row.state) { SoloExpiry(files[id], clock, HookOf(hooks, id)); }
      var outcome;
      outcome, p := ActLater(id, ExpiryAttempt(version, HookOf(hooks, id)));
      match outcome
      case Raised => r := Raised;
      case Success(answer) => r := Success(answer == Answered(APPLIED));
    }

    /** The same expiry, as the next step of a pass over a batch that was read earlier. */
    method ExpireNext(id: CaseId, version: int, ghost read: Tenant, ghost readAt: Instant, ghost start: seq<Commit>,
                      ghost mine: seq<nat>, ghost batch: seq<CaseId>, ghost expired: nat, ghost alone: bool,
                      hooks: Hooks)
      returns (r: Result<bool>, ghost grown: seq<nat>)
      requires Valid() && Led(read, start, Rows(), history) && start <= history
      requires files.Keys == read.files.Keys && readAt <= clock
      requires |mine| < |batch| && Distinct(batch) && id == batch[|mine|]
      requires id in DueForLifecycle(read, readAt) && version == read.files[id].row.version
      requires Progress(read, readAt, history[|start|..], mine, batch, expired, hooks)
      requires alone ==> schedule == [] && clock == readAt && Expiries(read, Rows(), batch[..|mine|], readAt, hooks)
      modifies this
      ensures Valid() && Led(read, start, Rows(), history) && start <= history
      ensures files.Keys == read.files.Keys && old(clock) <= clock && |grown| == |mine| + 1
      ensures r.Raised? ==> Attempts(read, readAt, history[|start|..], grown, batch, hooks)
      ensures r.Success? ==>
        Progress(read, readAt, history[|start|..], grown, batch, expired + if r.value then 1 else 0, hooks)
      ensures alone ==>
        && schedule == [] && clock == readAt
        && r == (if Stuck(read, id, hooks) then Raised else Success(true))
        && (r.Success? ==> Expiries(read, Rows(), batch[..|mine| + 1], readAt, hooks))
    {
      hide Invariant, RunAll, Apply, AppliedPosition, CountApplied, Attempts, Expiries, Stuck, WindowEnds;
      ghost var mid, h1, i := Rows(), history, |mine|;
      if alone { StillUntouched(read, mid, batch[..i], readAt, id, hooks); }
      ghost var p;
      r, p := ExpireOne(id, version, hooks);
      LedOn(read, start, mid, h1, Rows(), history);
      ProgressOn(read, readAt, h1[|start|..], history[|h1|..], mine, batch, expired, p, hooks);
      grown := mine + [|h1| - |start| + p];
      if alone && r.Success? {
        OneMoreExpiry(read, mid, batch[..i], readAt, id,
                      Moment(readAt, Transition(ExpiryAttempt(version, HookOf(hooks, id)))), hooks);
        assert batch[..i + 1] == batch[..i] + [id];
      }
    }

    /**
      Expires the cases whose window has closed, oldest first. `mine` says where in the history since the
      read its attempts stand, and `batch` which cases they were for.
    */
    method SweepExpiredCases(limit: nat, hooks: Hooks)
      returns (r: Result<nat>, ghost mine: seq<nat>, ghost batch: seq<CaseId>)
      requires Valid()
      modifies this
      ensures Valid() && Follows(old(Rows()), old(history)) && clock >= old(clock)
      ensures OldestFirst(batch, DueForLifecycle(old(Rows()), old(clock)), WindowEnds(old(Rows())), limit)
      ensures var since := history[|old(history)|..];
        && Attempts(old(Rows()), old(clock), since, mine, batch, hooks)
        && (r.Success? ==> |mine| == |batch| && Progress(old(Rows()), old(clock), since, mine, batch, r.value, hooks))
      ensures LongestOver(old(Rows()), old(clock), batch, limit)
      ensures AllTookOver(old(Rows()), history[|old(history)|..], mine, hooks)
      ensures old(schedule) == [] ==>
        && schedule == [] && clock == old(clock)
        && (r.Success? ==> r.value == |batch| && Expiries(old(Rows()), Rows(), batch, clock, hooks))
        && (r.Raised? <==> exists id :: id in batch && Stuck(old(Rows()), id, hooks))
      ensures old(schedule) == [] && r.Success? ==> EachExpired(old(Rows()), Rows(), batch, clock, hooks)
    {
      hide Invariant, OldestFirst, Attempts, Expiries, Stuck, Led, Progress, LongestOver, AllTookOver, EachExpired;
      hide AppliedPosition, RunAll;
      var read, readAt := Rows(), clock;
      ghost var start := history;
      var due := SelectOldest(DueForLifecycle(read, readAt), WindowEnds(read), limit);
      batch, mine := due, [];
      OldestMembers(due, DueForLifecycle(read, readAt), WindowEnds(read), limit);
      BatchMeaning(read, readAt, due, limit);
      LedSelf(read, history);
      ExpiriesEmpty(read, readAt, hooks);
      ProgressNone(read, readAt, due, hooks);
      assert history[|start|..] == [];
      var expired := 0;
      for i := 0 to |due|
        invariant Valid() && Led(read, start, Rows(), history) && start <= history
        invariant files.Keys == read.files.Keys && clock >= readAt
        invariant |mine| == i && Progress(read, readAt, history[|start|..], mine, due, expired, hooks)
        invariant old(schedule) == [] ==>
          schedule == [] && clock == readAt && expired == i && Expiries(read, Rows(), due[..i], readAt, hooks)
      {
        assert due[i] in due;
        var applied;
        applied, mine := ExpireNext(due[i], read.files[due[i]].row.version, read, readAt, start, mine, due, expired,
                                    old(schedule) == [], hooks);
        if applied.Raised? {
          LedMeans(read, start, Rows(), history);
          AttemptsTook(read, readAt, history[|start|..], mine, due, hooks);
          return Raised, mine, batch;
        }
        if applied.value { expired := expired + 1; }
      }
      assert due[..|due|] == due;
      ProgressMeans(read, readAt, history[|start|..], mine, due, expired, hooks);
      LedMeans(read, start, Rows(), history);
      AttemptsTook(read, readAt, history[|start|..], mine, due, hooks);
      if old(schedule) == [] {
        NoneStuck(read, Rows(), due, readAt, hooks);
        ExpiriesMeaning(read, Rows(), due, readAt, hooks);
      }
      r := Success(expired);
    }

    /**
      Drains the backlog that fell due while the program was down: up to a hundred passes, until one comes back
      short. `mine` says where in the history its expiries stand, each of a case that was due when a pass read it;
      `taken` is what an undisturbed drain expired.
    */
    method ReevaluateOnStartup() returns (r: Result<nat>, ghost mine: seq<nat>, ghost taken: seq<CaseId>)
      requires Valid()
      modifies this
      ensures Valid() && Follows(old(Rows()), old(history))
      ensures var since := history[|old(history)|..];
        && Tried(old(Rows()), since, mine, NO_HOOKS)
        && |mine| <= MAX_STARTUP_SWEEP_PASSES * DEFAULT_SWEEP_LIMIT
        && (r.Success? ==> r.value == CountApplied(old(Rows()), since, mine))
        && AllTookOver(old(Rows()), since, mine, NO_HOOKS)
      ensures old(schedule) == [] && r.Success? ==>
        && EachExpired(old(Rows()), Rows(), taken, clock, NO_HOOKS)
        && (r.value < 50_000 ==> AllOverTaken(old(Rows()), taken, clock))
      ensures old(schedule) == [] ==>
        && schedule == [] && clock == old(clock)
        && var n := |DueForLifecycle(old(Rows()), clock)|;
        && (r.Success? ==>
              && r.value == |taken| == Min(n, MAX_STARTUP_SWEEP_PASSES * DEFAULT_SWEEP_LIMIT)
              && Drained(old(Rows()), Rows(), taken, clock, NO_HOOKS))
        && (r.Raised? ==> SomeDueStuck(old(Rows()), clock, NO_HOOKS))
        && (n <= MAX_STARTUP_SWEEP_PASSES * DEFAULT_SWEEP_LIMIT ==>
              (r.Raised? <==> SomeDueStuck(old(Rows()), clock, NO_HOOKS)))
    {
      hide Invariant, OldestFirst, Attempts, Expiries, Led, Progress, Drained, Tried, CountApplied;
      hide DueForLifecycle, SomeDueStuck, WindowEnds, ExpiryOfRead, AllTookOver, EachExpired, AllOverTaken, LongestOver;
      hide ValidTenant;
      ghost var before, start, alone := Rows(), history, schedule == [];
      LedSelf(before, start);
      DrainedNone(before, clock, NO_HOOKS);
      NothingDrained(before);
      TriesTook(before, [], [], NO_HOOKS);
      mine, taken := [], [];
      assert history[|start|..] == [];
      var total: nat := 0;
      for pass := 0 to MAX_STARTUP_SWEEP_PASSES
        invariant Valid() && Led(before, start, Rows(), history) && start <= history
        invariant DrainedSoFar(before, history[|start|..], mine, pass * DEFAULT_SWEEP_LIMIT, total)
        invariant AllTookOver(before, history[|start|..], mine, NO_HOOKS)
        invariant alone ==>
          && schedule == [] && clock == old(clock) && Drained(before, Rows(), taken, clock, NO_HOOKS)
          && total == |taken| == pass * DEFAULT_SWEEP_LIMIT <= |DueForLifecycle(before, clock)|
      {
        ghost var mid, h1, readAt := Rows(), history, clock;
        var expired;
        ghost var next, batch;
        expired, next, batch := SweepExpiredCases(DEFAULT_SWEEP_LIMIT, NO_HOOKS);
        LedMeans(before, start, mid, h1);
        LedOn(before, start, mid, h1, Rows(), history);
        PassDrained(before, h1[|start|..], history[|h1|..], mine, pass, total, readAt, next, batch, expired);
        mine := mine + Shifted(next, |h1[|start|..]|);
        LedMeans(before, start, Rows(), history);
        TriesTook(before, history[|start|..], mine, NO_HOOKS);
        if expired.Raised? {
          if alone {
            BatchMembers(mid, clock, batch, DEFAULT_SWEEP_LIMIT);
            assert SomeDueStuck(mid, clock, NO_HOOKS) by { StuckInBatch(mid, clock, batch, NO_HOOKS); }
            DrainedRest(before, mid, taken, clock, NO_HOOKS);
          }
          return Raised, mine, taken;
        }
        if alone {
          DrainedMore(before, mid, Rows(), taken, batch, DEFAULT_SWEEP_LIMIT, clock, NO_HOOKS);
          taken := taken + batch;
        }
        total := total + expired.value;
        if expired.value < DEFAULT_SWEEP_LIMIT { break; }
      }
      if alone {
        DrainedRest(before, Rows(), taken, clock, NO_HOOKS);
        DrainedMeaning(before, Rows(), taken, clock, NO_HOOKS);
      }
      r := Success(total);
    }

    // ---- Reviews ----

    /** Queues one decision cycle for a case; nothing happens if one is already pending. */
    method EnqueueCaseReview(id: CaseId) returns (enqueued: bool)
      requires Valid()
      modifies this
      ensures Valid() && clock == old(clock) && schedule == old(schedule)
      ensures enqueued <==> NonePending(old(jobs), "case_review:" + id)
      ensures jobs == old(jobs)
        + if enqueued then [Job("case_review", Some("case_review:" + id), Some(id), Pending)] else []
      ensures history == old(history) + [OnQueue(Enqueued(ReviewJob(id)))]
      ensures Rows() == Apply(old(Rows()), OnQueue(Enqueued(ReviewJob(id)))) && Follows(old(Rows()), old(history))
      ensures !enqueued ==> Rows() == old(Rows())
    {
      hide Invariant, ReviewWaits, RunAll, Led, OnePendingPerKey;
      ghost var before, c := Rows(), OnQueue(Enqueued(ReviewJob(id)));
      EnqueueingReview(jobs, id);
      ReviewKeyText(jobs, id);
      QueueStepKeepsIndex(jobs, Enqueued(ReviewJob(id)));
      var job := ReviewJob(id);
      enqueued := !ReviewWaits(jobs, id);
      if enqueued { jobs := jobs + [job]; }
      LedOne(before, history, c);
      history := history + [c];
    }

    /** Re-checks a case that was due when it was read, and queues its review if it still waits for one. */
    method EnqueueOne(id: CaseId, version: int, cap: int) returns (enqueued: bool)
      requires Valid()
      modifies this
      ensures Valid() && clock == old(clock) && schedule == old(schedule) && Follows(old(Rows()), old(history))
      ensures enqueued <==>
        && id in old(files) && old(files)[id].row.version == version
        && old(files)[id].row.state == PolicyCheck && old(files)[id].row.nextReviewAt.Some?
        && old(files)[id].row.cycles < cap && NonePending(old(jobs), "case_review:" + id)
      ensures enqueued ==>
        && history == old(history) + [OnQueue(Enqueued(ReviewJob(id)))]
        && Rows() == Apply(old(Rows()), OnQueue(Enqueued(ReviewJob(id))))
        && jobs == old(jobs) + [Job("case_review", Some("case_review:" + id), Some(id), Pending)]
      ensures !enqueued ==> Rows() == old(Rows())
    {
      hide Invariant, RunAll, ReviewWaits, ReviewJob, NonePending;
      LedSelf(Rows(), history);
      ReviewKeyText(jobs, id);
      EnqueueingReview(jobs, id);
      if id !in files { return false; }
      var row := files[id].row;
      if row.version != version { return false; }
      if row.state != PolicyCheck || row.nextReviewAt.None? || row.cycles >= cap { return false; }
      enqueued := EnqueueCaseReview(id);
    }

    /** The same re-check, as the next step of a pass over a batch that was read earlier. */
    method ReviewNext(id: CaseId, version: int, cap: int, ghost read: Tenant, ghost readAt: Instant,
                      ghost start: seq<Commit>, ghost mine: seq<nat>, ghost reached: seq<CaseId>, ghost alone: bool)
      returns (queued: bool, ghost grown: seq<nat>)
      requires Valid() && ValidTenant(read) && Led(read, start, Rows(), history) && start <= history
      requires id in DueForReview(read, readAt, cap) && id in read.files && version == read.files[id].row.version
      requires QueuedBy(read, readAt, cap, history[|start|..], mine)
      requires alone ==> schedule == [] && clock == readAt && Reviewed(read, Rows(), reached, |mine|)
      modifies this
      ensures Valid() && Led(read, start, Rows(), history) && start <= history
      ensures |grown| == |mine| + if queued then 1 else 0
      ensures QueuedBy(read, readAt, cap, history[|start|..], grown)
      ensures alone ==> schedule == [] && clock == readAt && Reviewed(read, Rows(), reached + [id], |grown|)
    {
      hide Invariant, Apply, RunAll, ReviewPending, DueForReview, QueuedBy, Led, Reviewed, OnePendingPerKey;
      hide ReviewJob, ValidTenant, NonePending;
      ghost var mid, h1 := Rows(), history;
      Yield();
      LedOn(read, start, mid, h1, Rows(), history);
      QueuedLater(read, readAt, cap, h1[|start|..], history[|h1|..], mine);
      ghost var late, h2 := Rows(), history;
      LedMeans(read, start, late, h2);
      PendingText(late, id);
      if alone {
        StillWanted(read, late, reached, |mine|, readAt, cap, id);
        ReviewedNext(read, late, reached, |mine|, id);
      }
      queued := EnqueueOne(id, version, cap);
      LedOn(read, start, late, h2, Rows(), history);
      if queued {
        QueuedNow(read, readAt, cap, h2[|start|..], mine, id);
        grown := mine + [|h2| - |start|];
        assert history[|h2|..] == [OnQueue(Enqueued(ReviewJob(id)))];
      } else {
        QueuedLater(read, readAt, cap, h2[|start|..], history[|h2|..], mine);
        grown := mine;
      }
    }

    /** Queues a review for every case whose review instant has been reached, longest due first. */
    method SweepDueReviews(limit: int, cap: int)
      returns (r: Result<nat>, ghost mine: seq<nat>, ghost batch: seq<CaseId>)
      requires Valid()
      modifies this
      ensures Valid() && Follows(old(Rows()), old(history))
      ensures r.Raised? <==> limit <= 0
      ensures r.Raised? ==> Rows() == old(Rows())
      ensures r.Success? ==>
        && OldestFirst(batch, DueForReview(old(Rows()), old(clock), cap), ReviewInstants(old(Rows())), limit)
        && LongestDue(old(Rows()), old(clock), cap, batch, limit)
        && r.value == |mine| && QueuedBy(old(Rows()), old(clock), cap, history[|old(history)|..], mine)
      ensures r.Success? && old(schedule) == [] ==>
        && schedule == [] && clock == old(clock) && files == old(files)
        && |jobs| == |old(jobs)| + r.value && old(jobs) <= jobs
        && forall id: CaseId ::
             NonePending(jobs, "case_review:" + id) <==> NonePending(old(jobs), "case_review:" + id) && id !in batch
    {
      hide Invariant, RunAll, ReviewPending, OldestFirst, DueForReview, ReviewInstants, QueuedBy, Led;
      hide ValidTenant, LongestDue, NonePending;
      var read, readAt := Rows(), clock;
      ghost var start, alone := history, schedule == [];
      mine, batch := [], [];
      LedSelf(read, history);
      if limit <= 0 { return Raised, mine, batch; }
      ReviewInstantsKnown(read, readAt, cap);
      var due := SelectOldest(DueForReview(read, readAt, cap), ReviewInstants(read), limit);
      batch := due;
      ReviewBatch(read, readAt, cap, due, limit);
      ReviewBatchMeaning(read, readAt, cap, due, limit);
      ReviewedNone(read);
      QueuedNone(read, readAt, cap);
      assert history[|start|..] == [];
      var enqueued: nat := 0;
      for i := 0 to |due|
        invariant Valid() && Led(read, start, Rows(), history) && start <= history
        invariant QueuedBy(read, readAt, cap, history[|start|..], mine) && enqueued == |mine|
        invariant alone ==> schedule == [] && clock == readAt && Reviewed(read, Rows(), due[..i], enqueued)
      {
        assert due[i] in due;
        assert due[..i + 1] == due[..i] + [due[i]];
        var queued;
        queued, mine := ReviewNext(due[i], read.files[due[i]].row.version, cap, read, readAt, start, mine, due[..i],
                                   alone);
        if queued { enqueued := enqueued + 1; }
      }
      assert due[..|due|] == due;
      forall id: CaseId
        ensures ReviewPending(read, id) <==> !NonePending(read.jobs, "case_review:" + id)
        ensures ReviewPending(Rows(), id) <==> !NonePending(jobs, "case_review:" + id)
      {
        PendingText(read, id);
        PendingText(Rows(), id);
      }
      r := Success(enqueued);
    }

    /** Files what the estimators record, in the transaction that read the case. */
    method FileNotes(id: CaseId, notes: seq<Note>) returns (committed: bool)
      requires Valid() && id in files
      modifies this
      ensures Valid() && clock == old(clock) && schedule == old(schedule) && files.Keys == old(files).Keys
      ensures history == old(history) + [OnCase(id, Moment(old(clock), WriteRecords(notes)))]
      ensures Rows() == Apply(old(Rows()), OnCase(id, Moment(old(clock), WriteRecords(notes))))
      ensures Follows(old(Rows()), old(history))
      ensures committed <==> old(files)[id].row.auditSeq + |notes| <= AUDIT_CEILING
      ensures !committed ==> Rows() == old(Rows())
    {
      hide RunAll, LogAgrees, Follows, Apply, ColumnsAgree, TokensAgree, WithRecords;
      ghost var moment := Moment(clock, WriteRecords(notes));
      NotesCommit(files[id], moment);
      var locked := new RecoveryCase(files[id]);
      locked.WriteNotes(notes, clock);
      committed := Commit(id, locked, true, moment);
      if !committed { UnchangedStep(old(Rows()), OnCase(id, moment)); }
    }

    /** A review's move, after the transaction that read the case; `p` counts from the history before that one. */
    method ActOnReview(id: CaseId, move: Attempt, promiseDue: bool, cap: int, trigger: string,
                       recommended: Option<CandidateAction>, ghost rows: Tenant, ghost start: seq<Commit>)
      returns (r: Result<Option<ApplyOutcome>>, ghost p: nat)
      requires Valid() && id in files && Led(rows, start, Rows(), history) && start <= history
      requires ValidTenant(rows) && id in rows.files
      requires ReviewMove(rows.files[id].row, promiseDue, cap, trigger, recommended) == Some(move)
      modifies this
      ensures Valid() && Led(rows, start, Rows(), history) && old(history) <= history && start <= history
      ensures r != Success(None) && AttemptedAt(history[|start|..], p, id, Some(move))
      ensures r == Success(Some(Answered(APPLIED))) <==> AppliedPosition(rows, history[|start|..], p)
      ensures r == Success(Some(Answered(APPLIED))) ==>
        ReviewTookEffect(rows, history[|start|..], p, cap, trigger, recommended)
    {
      hide ValidTenant, RunAll, AppliedPosition, Transact, Apply, ReviewTookEffect, Led;
      ghost var mid, h1 := Rows(), history;
      var outcome;
      outcome, p := ActLater(id, move);
      LedOn(rows, start, mid, h1, Rows(), history);
      LedMeans(rows, start, mid, h1);
      PositionShift(rows, h1[|start|..], history[|h1|..], p);
      p := |h1| - |start| + p;
      LedMeans(rows, start, Rows(), history);
      if outcome == Success(Answered(APPLIED)) {
        ReviewLands(rows, history[|start|..], p, promiseDue, cap, trigger, recommended);
      }
      match outcome
      case Raised => r := Raised;
      case Success(answer) => r := Success(Some(answer));
    }

    /**
      One review: it reads the case under its lock and, below the cap, runs the estimators and files their records;
      it lets go, and then attempts its one move, if there is one, at the version it read. A move that is applied met
      the case as it was read; a re-entry costs one cycle and stays in the cap. `filed` is what the estimators
      record.
    */
    method HandleReview(
      id: CaseId, promiseDue: bool, cap: int, trigger: string, filed: seq<Note>,
      recommended: Option<CandidateAction>)
      returns (r: Result<Option<ApplyOutcome>>, ghost p: nat)
      requires Valid()
      modifies this
      ensures Valid() && Follows(old(Rows()), old(history))
      ensures
        (|| id !in old(files) || old(files)[id].row.state !in {PolicyCheck, WaitingForOutcome}
         || (old(files)[id].row.state == WaitingForOutcome && !promiseDue)) ==>
          r == Success(None) && Rows() == old(Rows()) && history == old(history)
      ensures
        (&& id in old(files) && old(files)[id].row.cycles < cap
         && (|| old(files)[id].row.state == PolicyCheck
             || (old(files)[id].row.state == WaitingForOutcome && promiseDue))) ==>
        var filing := OnCase(id, Moment(old(clock), WriteRecords(filed)));
        && old(history) + [filing] <= history
        && (old(files)[id].row.auditSeq + |filed| > AUDIT_CEILING ==>
              r == Raised && Rows() == old(Rows()) && history == old(history) + [filing])
        && (old(files)[id].row.auditSeq + |filed| <= AUDIT_CEILING && recommended.None? ==>
              && r == Success(None) && history == old(history) + [filing]
              && Rows() == Apply(old(Rows()), filing))
      ensures
        (&& id in old(files)
         && (|| old(files)[id].row.state == PolicyCheck
             || (old(files)[id].row.state == WaitingForOutcome && promiseDue))
         && (old(files)[id].row.cycles < cap ==>
               recommended.Some? && old(files)[id].row.auditSeq + |filed| <= AUDIT_CEILING)) ==>
        var since := history[|old(history)|..];
        && r != Success(None)
        && AttemptedAt(since, p, id, ReviewMove(old(files)[id].row, promiseDue, cap, trigger, recommended))
        && (r == Success(Some(Answered(APPLIED))) <==> AppliedPosition(old(Rows()), since, p))
        && (r == Success(Some(Answered(APPLIED))) ==>
              ReviewTookEffect(old(Rows()), since, p, cap, trigger, recommended))
      ensures r == Success(Some(Answered(APPLIED))) ==>
        && id in old(files)
        && (|| old(files)[id].row.state == PolicyCheck
            || (old(files)[id].row.state == WaitingForOutcome && promiseDue))
        && (old(files)[id].row.cycles < cap ==>
              recommended.Some? && old(files)[id].row.auditSeq + |filed| <= AUDIT_CEILING)
    {
      hide Invariant, RunAll, AppliedPosition, Apply, OnePendingPerKey, Led, ReviewTookEffect, AttemptedAt;
      p := 0;
      LedSelf(Rows(), history);
      if id !in files { return Success(None), p; }
      var row := files[id].row;
      if !ReviewAdmits(row.state, promiseDue) { return Success(None), p; }
      ghost var rows, start := Rows(), history;
      if row.cycles < cap {
        var committed := FileNotes(id, filed);
        if !committed { return Raised, p; }
        if recommended.None? { return Success(None), p; }
      }
      var move := ReviewMove(row, promiseDue, cap, trigger, recommended);
      r, p := ActOnReview(id, move.value, promiseDue, cap, trigger, recommended, rows, start);
    }
  }
}
