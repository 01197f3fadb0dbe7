/** The optimizer's way into deciding, which no one checks against the cap, and what files the papers it needs. */
module OptimizerEntry {
  import opened Common
  import opened Transitions
  import opened CaseModel
  import opened CaseInvariants
  import opened Bounds
  import opened CaseRuns
  import opened Reentry

  // ---- A case with what is filed for it and what its handlers have in hand ----

  /** The decision cycles under which a diagnosis, a baseline with its candidates, and a recommendation are filed. */
  datatype Papers = Papers(diagnosed: set<int>, estimated: set<int>, recommended: set<int>)

  /**
    What a handler carries from one transaction to the next: that a recommendation for a cycle was there already, so
    that the version has still to be read, or the version it will make its move at and the cycle count it read there.
  */
  datatype Ticket = Found(cycle: int) | Ready(version: int, cycles: int)

  datatype Desk = Desk(file: CaseFile, papers: Papers, tickets: set<Ticket>)

  function NewDesk(windowEndAt: Instant, start: Instant): Desk {
    Desk(Opened(windowEndAt, start), Papers({}, {}, {}), {})
  }

  datatype Act =
    | Elsewhere(moment: Moment)
    | Diagnose(now: Instant, notes: seq<Note>)
    | Estimate(now: Instant, notes: seq<Note>)
    | Optimize(now: Instant, notes: seq<Note>)
    | ReRead(cycle: int)
    | Review(now: Instant, promiseDue: bool, priced: bool, notes: seq<Note>)
    | MissPromise(now: Instant, limits: Limits)
    | RefuseResend(now: Instant, limits: Limits, action: CandidateAction, code: string)
    | Enter(now: Instant, attempt: Attempt)

  /** Papers filed and a ticket taken with their records, or nothing when the log has no room for the records. */
  function Filed(desk: Desk, now: Instant, notes: seq<Note>, papers: Papers, taken: set<Ticket>): Desk {
    if desk.file.row.auditSeq + |notes| > AUDIT_CEILING then desk
    else Desk(Step(desk.file, Moment(now, WriteRecords(notes))), papers, desk.tickets + taken)
  }

  /**
    One transaction. Every handler files under the cycle count on the row: the estimators only where a diagnosis is
    filed, the optimizer only where estimates are and no recommendation yet, and a review all of them at once, below
    the cap.
  */
  function Work(desk: Desk, act: Act, cap: int): Desk {
    var row, papers := desk.file.row, desk.papers;
    var here := {row.cycles};
    match act
    case Elsewhere(moment) => desk.(file := Step(desk.file, moment))
    case Diagnose(now, notes) => Filed(desk, now, notes, papers.(diagnosed := papers.diagnosed + here), {})
    case Estimate(now, notes) =>
      if row.cycles !in papers.diagnosed then Filed(desk, now, notes, papers, {})
      else Filed(desk, now, notes, papers.(estimated := papers.estimated + here), {})
    case Optimize(now, notes) =>
      if row.cycles in papers.recommended then desk.(tickets := desk.tickets + {Found(row.cycles)})
      else if row.cycles !in papers.estimated then desk
      else
        Filed(desk, now, notes, papers.(recommended := papers.recommended + here), {Ready(row.version, row.cycles)})
    case ReRead(cycle) =>
      if Found(cycle) in desk.tickets then desk.(tickets := desk.tickets + {Ready(row.version, row.cycles)}) else desk
    case Review(now, promiseDue, priced, notes) =>
      if !Estimates(row, promiseDue, cap) then desk
      else if !priced then Filed(desk, now, notes, papers.(diagnosed := papers.diagnosed + here), {})
      else
        Filed(desk, now, notes,
              Papers(papers.diagnosed + here, papers.estimated + here, papers.recommended + here),
              {Ready(row.version, row.cycles)})
    case MissPromise(now, limits) => desk.(file := DisposeMissed(desk.file, limits, now).0)
    case RefuseResend(now, limits, action, code) =>
      var move := ResendMove(row, BoundReached(row, limits, now), action, code);
      if move.None? then desk else desk.(file := Step(desk.file, Moment(now, Transition(move.value))))
    case Enter(now, attempt) => desk.(file := Step(desk.file, Moment(now, Transition(attempt))))
  }

  /** What a run may not do unless it is let. */
  datatype Leave = Leave(lateFiling: bool, lateReading: bool)

  /**
    Acts that can come next. Only the four callers enter DECISION_PENDING: on a locked row, or by a ticket. Late
    filing is an estimation handler filing at a cycle count that has reached the cap; late reading is an optimizer
    that found its cycle's recommendation and reads the version when the case is in another cycle.
  */
  predicate Permitted(desk: Desk, act: Act, cap: int, leave: Leave) {
    match act
    case Elsewhere(moment) =>
      WellFormed(moment) && !(moment.event.Transition? && moment.event.attempt.target == DecisionPending)
    case Estimate(_, _) =>
      desk.file.row.cycles in desk.papers.diagnosed && desk.file.row.cycles >= cap ==> leave.lateFiling
    case ReRead(cycle) => Found(cycle) in desk.tickets && desk.file.row.cycles != cycle ==> leave.lateReading
    case MissPromise(_, limits) => limits.maxRecoveryAttempts == cap
    case RefuseResend(_, limits, _, _) => limits.maxRecoveryAttempts == cap
    case Enter(_, attempt) => Fits(attempt) && attempt.target == DecisionPending && HasTicket(desk, attempt)
    case _ => true
  }

  predicate HasTicket(desk: Desk, attempt: Attempt) {
    exists ticket :: ticket in desk.tickets && ticket.Ready? && ticket.version == attempt.expectedVersion
  }

  function DeskAfter(desk: Desk, acts: seq<Act>, cap: int): Desk {
    if acts == [] then desk else Work(DeskAfter(desk, acts[..|acts| - 1], cap), acts[|acts| - 1], cap)
  }

  ghost predicate AllPermitted(desk: Desk, acts: seq<Act>, cap: int, leave: Leave) {
    forall k :: 0 <= k < |acts| ==> Permitted(DeskAfter(desk, acts[..k], cap), acts[k], cap, leave)
  }

  // ---- What keeps the cap ----

  /** A row no entry at a stale version can push past the cap: a ticket at the row's version was taken below it. */
  predicate TicketBelow(ticket: Ticket, row: CaseRow, cap: int) {
    match ticket
    case Found(cycle) => 0 <= cycle < cap
    case Ready(version, cycles) =>
      cycles < cap && version <= row.version && (version == row.version ==> row.cycles == cycles)
  }

  ghost predicate DeskInvariant(desk: Desk, cap: int) {
    && Invariant(desk.file) && desk.file.row.cycles <= cap
    && (forall n :: n in desk.papers.estimated + desk.papers.recommended ==> 0 <= n < cap)
    && (forall ticket :: ticket in desk.tickets ==> TicketBelow(ticket, desk.file.row, cap))
  }

  /** A step of the case leaves every ticket as good as it was, or out of date. */
  lemma TicketsLater(f: CaseFile, m: Moment, ticket: Ticket, cap: int)
    requires Invariant(f) && WellFormed(m) && TicketBelow(ticket, f.row, cap)
    ensures TicketBelow(ticket, Step(f, m).row, cap)
  {
    hide Invariant, Step;
    StepFacts(f, m);
  }

  lemma StepKeepsDesk(desk: Desk, m: Moment, cap: int)
    requires DeskInvariant(desk, cap) && WellFormed(m)
    requires AppliedBy(desk.file, m) && m.event.attempt.target == DecisionPending ==> desk.file.row.cycles < cap
    ensures DeskInvariant(desk.(file := Step(desk.file, m)), cap)
  {
    hide Invariant, Step, TicketBelow, AppliedBy;
    StepKeepsInvariant(desk.file, m);
    CyclesAfter(desk.file, m);
    forall ticket | ticket in desk.tickets ensures TicketBelow(ticket, Step(desk.file, m).row, cap) {
      TicketsLater(desk.file, m, ticket, cap);
    }
  }

  lemma FreshTicket(row: CaseRow, cap: int)
    requires row.cycles < cap
    ensures TicketBelow(Ready(row.version, row.cycles), row, cap)
  {}

  lemma FilingKeepsDesk(desk: Desk, now: Instant, notes: seq<Note>, papers: Papers, taken: set<Ticket>, cap: int)
    requires DeskInvariant(desk, cap)
    requires forall n :: n in papers.estimated + papers.recommended ==>
      n in desk.papers.estimated + desk.papers.recommended || n == desk.file.row.cycles < cap
    requires forall ticket :: ticket in taken ==>
      ticket == Ready(desk.file.row.version, desk.file.row.cycles) && desk.file.row.cycles < cap
    ensures DeskInvariant(Filed(desk, now, notes, papers, taken), cap)
  {
    hide LogAgrees, TokensAgree, Step, TicketBelow;
    var m := Moment(now, WriteRecords(notes));
    StepKeepsDesk(desk, m, cap);
    forall ticket | ticket in taken ensures TicketBelow(ticket, Step(desk.file, m).row, cap) {
      FreshTicket(desk.file.row, cap);
      TicketsLater(desk.file, m, ticket, cap);
    }
  }

  lemma DispositionKeepsDesk(desk: Desk, now: Instant, limits: Limits, cap: int)
    requires DeskInvariant(desk, cap) && limits.maxRecoveryAttempts == cap
    ensures DeskInvariant(desk.(file := DisposeMissed(desk.file, limits, now).0), cap)
  {
    hide DeskInvariant, Refused, Moved, AfterSuccess, Storable;
    var bound := BoundReached(desk.file.row, limits, now);
    var m := Moment(now, Transition(MissedMove(desk.file.row, bound)));
    if bound != Some(WindowElapsed) {
      StepKeepsDesk(desk, m, cap);
      assert DisposeMissed(desk.file, limits, now).0 == Step(desk.file, m);
    } else {
      assert desk.(file := desk.file) == desk;
    }
  }

  /** Any act that is neither late filing nor late reading keeps the case within the cap, and every ticket below it. */
  lemma WorkKeepsDesk(desk: Desk, act: Act, cap: int, leave: Leave)
    requires DeskInvariant(desk, cap) && Permitted(desk, act, cap, leave)
    requires !leave.lateFiling && (cap == 0 || !leave.lateReading)
    ensures DeskInvariant(Work(desk, act, cap), cap)
  {
    hide Filed, Step, Invariant, DisposeMissed;
    var row, papers := desk.file.row, desk.papers;
    var n, here := row.cycles, {row.cycles};
    match act
    case Elsewhere(moment) => StepKeepsDesk(desk, moment, cap);
    case Diagnose(now, notes) =>
      FilingKeepsDesk(desk, now, notes, papers.(diagnosed := papers.diagnosed + here), {}, cap);
    case Estimate(now, notes) =>
      if n !in papers.diagnosed { FilingKeepsDesk(desk, now, notes, papers, {}, cap); }
      else { FilingKeepsDesk(desk, now, notes, papers.(estimated := papers.estimated + here), {}, cap); }
    case Optimize(now, notes) =>
      if n !in papers.recommended && n in papers.estimated {
        assert n in papers.estimated + papers.recommended;
        FilingKeepsDesk(desk, now, notes, papers.(recommended := papers.recommended + here), {Ready(row.version, n)},
                        cap);
      } else if n in papers.recommended {
        assert n in papers.estimated + papers.recommended;
      }
    case ReRead(cycle) =>
      if Found(cycle) in desk.tickets { assert TicketBelow(Found(cycle), row, cap); }
    case Review(now, promiseDue, priced, notes) =>
      if Estimates(row, promiseDue, cap) {
        FilingKeepsDesk(desk, now, notes, papers.(diagnosed := papers.diagnosed + here), {}, cap);
        FilingKeepsDesk(desk, now, notes, Papers(papers.diagnosed + here, papers.estimated + here,
                                                 papers.recommended + here), {Ready(row.version, n)}, cap);
      }
    case MissPromise(now, limits) => DispositionKeepsDesk(desk, now, limits, cap);
    case RefuseResend(now, limits, action, code) =>
      var move := ResendMove(row, BoundReached(row, limits, now), action, code);
      if move.Some? { StepKeepsDesk(desk, Moment(now, Transition(move.value)), cap); }
    case Enter(now, attempt) => EntryKeepsDesk(desk, now, attempt, cap);
  }

  /** An entry that is applied met the row its ticket was taken on, below the cap. */
  lemma EntryKeepsDesk(desk: Desk, now: Instant, attempt: Attempt, cap: int)
    requires DeskInvariant(desk, cap) && Fits(attempt) && HasTicket(desk, attempt)
    ensures DeskInvariant(desk.(file := Step(desk.file, Moment(now, Transition(attempt)))), cap)
  {
    hide Step, Invariant;
    var m := Moment(now, Transition(attempt));
    var ticket :| ticket in desk.tickets && ticket.Ready? && ticket.version == attempt.expectedVersion;
    assert TicketBelow(ticket, desk.file.row, cap);
    StepFacts(desk.file, m);
    StepKeepsDesk(desk, m, cap);
  }

  /**
    Whatever the handlers do, in any order and any number of times: with no late filing and no late reading the
    case stays within a cap that is not negative.
  */
  lemma {:induction false} PunctualKeepsCap(
    windowEndAt: Instant, start: Instant, acts: seq<Act>, cap: int, leave: Leave)
    requires AllPermitted(NewDesk(windowEndAt, start), acts, cap, leave) && cap >= 0
    requires !leave.lateFiling && (cap == 0 || !leave.lateReading)
    ensures DeskInvariant(DeskAfter(NewDesk(windowEndAt, start), acts, cap), cap)
  {
    hide DeskInvariant, Work, Permitted;
    var desk := NewDesk(windowEndAt, start);
    if acts == [] {
      NewDeskInvariant(windowEndAt, start, cap);
    } else {
      var n := |acts| - 1;
      assert AllPermitted(desk, acts[..n], cap, leave) by { PermittedPrefix(desk, acts, cap, leave); }
      PunctualKeepsCap(windowEndAt, start, acts[..n], cap, leave);
      WorkKeepsDesk(DeskAfter(desk, acts[..n], cap), acts[n], cap, leave);
    }
  }

  lemma NewDeskInvariant(windowEndAt: Instant, start: Instant, cap: int)
    requires cap >= 0
    ensures DeskInvariant(NewDesk(windowEndAt, start), cap)
  {
    hide Invariant;
    OpenedInvariant(windowEndAt, start);
  }

  lemma PermittedPrefix(desk: Desk, acts: seq<Act>, cap: int, leave: Leave)
    requires AllPermitted(desk, acts, cap, leave) && acts != []
    ensures AllPermitted(desk, acts[..|acts| - 1], cap, leave)
  {
    hide Work, Permitted, DeskAfter;
    var shorter := acts[..|acts| - 1];
    forall k | 0 <= k < |shorter| ensures Permitted(DeskAfter(desk, shorter[..k], cap), shorter[k], cap, leave) {
      assert shorter[..k] == acts[..k];
    }
  }

  // ---- What does not ----

  ghost predicate Reached(acts: seq<Act>, desk: Desk, cap: int, leave: Leave) {
    AllPermitted(NewDesk(0, 0), acts, cap, leave) && DeskAfter(NewDesk(0, 0), acts, cap) == desk
  }

  lemma Onward(acts: seq<Act>, desk: Desk, act: Act, cap: int, leave: Leave)
    requires Reached(acts, desk, cap, leave) && Permitted(desk, act, cap, leave)
    ensures Reached(acts + [act], Work(desk, act, cap), cap, leave)
  {
    hide Work, Permitted, NewDesk;
    var longer := acts + [act];
    assert longer[..|acts|] == acts;
    forall k | 0 <= k < |longer| ensures Permitted(DeskAfter(NewDesk(0, 0), longer[..k], cap), longer[k], cap, leave) {
      assert k < |acts| ==> longer[..k] == acts[..k];
    }
  }

  /** A desk seen from outside: its case's state and cycles, and how long its log has become at most. */
  ghost predicate Stands(desk: Desk, state: CaseState, cycles: int, records: int) {
    && Invariant(desk.file) && desk.file.row.state == state && desk.file.row.cycles == cycles
    && desk.file.row.auditSeq <= records < AUDIT_CEILING
  }

  function Noted(name: string, actor: string): seq<Note> { [Note(name, actor, None, None)] }

  lemma StandsAfterFiling(
    desk: Desk, notes: seq<Note>, papers: Papers, taken: set<Ticket>, state: CaseState, cycles: int, records: int)
    requires Stands(desk, state, cycles, records) && |notes| == 1 && records + 1 < AUDIT_CEILING
    ensures var after := Filed(desk, 0, notes, papers, taken);
      && Stands(after, state, cycles, records + 1) && after.file.row.version == desk.file.row.version
      && after.papers == papers && after.tickets == desk.tickets + taken
  {
    hide Invariant, Step;
    NotesStep(desk.file, Moment(0, WriteRecords(notes)));
  }

  function Move(desk: Desk, target: CaseState): Moment {
    Moment(0, Transition(PlainAttempt(desk.file.row.version, target)))
  }

  /** A plain move of the case, by whoever makes it. */
  lemma StandsAfterMove(desk: Desk, target: CaseState, state: CaseState, cycles: int, records: int)
    requires Stands(desk, state, cycles, records) && RuleFor(state, target).Some? && records + 1 < AUDIT_CEILING
    requires target == DecisionPending ==> cycles < COUNTER_CEILING
    ensures var after := desk.(file := Step(desk.file, Move(desk, target)));
      Stands(after, target, cycles + if target == DecisionPending then 1 else 0, records + 1)
  {
    hide Invariant, Step, RuleFor;
    OneStepAlong(desk.file, target, 0);
    StepKeepsInvariant(desk.file, Move(desk, target));
  }

  /** With a ticket taken at the version the row is at, a case that may go back to deciding does. */
  lemma Entered(acts: seq<Act>, desk: Desk, cap: int, leave: Leave, state: CaseState, cycles: int, records: int)
    returns (longer: seq<Act>, after: Desk)
    requires Reached(acts, desk, cap, leave) && Stands(desk, state, cycles, records) && records + 2 < AUDIT_CEILING
    requires Ready(desk.file.row.version, cycles) in desk.tickets && cycles < COUNTER_CEILING
    requires RuleFor(state, DecisionPending).Some?
    ensures Reached(longer, after, cap, leave) && Stands(after, PolicyCheck, cycles + 1, records + 2)
    ensures after.papers == desk.papers && after.tickets == desk.tickets
  {
    hide Reached, Stands, Step, RuleFor;
    var enter := Enter(0, PlainAttempt(desk.file.row.version, DecisionPending));
    assert HasTicket(desk, enter.attempt) by { assert Ready(desk.file.row.version, cycles).Ready?; }
    StandsAfterMove(desk, DecisionPending, state, cycles, records);
    Onward(acts, desk, enter, cap, leave);
    longer, after := acts + [enter], Work(desk, enter, cap);
    var decide := Elsewhere(Move(after, PolicyCheck));
    assert RuleFor(DecisionPending, PolicyCheck).Some? by { DecisionsReachPolicy(); }
    StandsAfterMove(after, PolicyCheck, DecisionPending, cycles + 1, records + 1);
    Onward(longer, after, decide, cap, leave);
    longer, after := longer + [decide], Work(after, decide, cap);
  }

  lemma DecisionsReachPolicy()
    ensures RuleFor(DecisionPending, PolicyCheck).Some? && RuleFor(PolicyCheck, DecisionPending).Some?
    ensures RuleFor(Detected, Diagnosed).Some? && RuleFor(Diagnosed, DecisionPending).Some?
  {}

  lemma OpenedStands()
    ensures Stands(NewDesk(0, 0), Detected, 0, 1)
  {
    hide Invariant;
    OpenedInvariant(0, 0);
  }

  /** Diagnosed and estimated, in the cycle the case is in, and ready for the optimizer's move. */
  lemma Estimated(acts: seq<Act>, desk: Desk, cap: int, leave: Leave, state: CaseState, cycles: int, records: int)
    returns (longer: seq<Act>, after: Desk)
    requires Reached(acts, desk, cap, leave) && Stands(desk, state, cycles, records) && records + 3 < AUDIT_CEILING
    requires cycles !in desk.papers.recommended && (cycles < cap || leave.lateFiling)
    ensures Reached(longer, after, cap, leave) && Stands(after, state, cycles, records + 3)
    ensures Ready(after.file.row.version, cycles) in after.tickets && desk.tickets <= after.tickets
    ensures after.papers.recommended == desk.papers.recommended + {cycles}
  {
    hide Reached, Step, Invariant, Filed;
    var act := Diagnose(0, Noted("DIAGNOSIS_RECORDED", "diagnosis_engine"));
    var papers := desk.papers.(diagnosed := desk.papers.diagnosed + {cycles});
    StandsAfterFiling(desk, act.notes, papers, {}, state, cycles, records);
    Onward(acts, desk, act, cap, leave);
    longer, after := acts + [act], Work(desk, act, cap);

    act := Estimate(0, Noted("CANDIDATE_ESTIMATES_RECORDED", "candidate_prior_lookup"));
    papers := papers.(estimated := papers.estimated + {cycles});
    StandsAfterFiling(after, act.notes, papers, {}, state, cycles, records + 1);
    Onward(longer, after, act, cap, leave);
    longer, after := longer + [act], Work(after, act, cap);

    act := Optimize(0, Noted("RECOMMENDATION_RECORDED", "value_optimizer"));
    papers := papers.(recommended := papers.recommended + {cycles});
    StandsAfterFiling(after, act.notes, papers, {Ready(after.file.row.version, cycles)}, state, cycles, records + 2);
    Onward(longer, after, act, cap, leave);
    longer, after := longer + [act], Work(after, act, cap);
  }

  /** Runs in which a second optimizer job found the first cycle's recommendation and has yet to read the version. */
  ghost predicate Waiting(acts: seq<Act>, desk: Desk, cap: int, leave: Leave, cycles: int, records: int) {
    && Reached(acts, desk, cap, leave) && Stands(desk, PolicyCheck, cycles, records) && Found(0) in desk.tickets
    && forall n :: n in desk.papers.recommended ==> n < cycles
  }

  /** The first decision, with the optimizer's job delivered twice. */
  lemma FirstDecision(cap: int, leave: Leave) returns (acts: seq<Act>, desk: Desk)
    requires cap >= 1 || leave.lateFiling
    ensures Waiting(acts, desk, cap, leave, 1, 7)
  {
    hide Reached, Stands, Step, RuleFor;
    acts, desk := [], NewDesk(0, 0);
    assert Reached(acts, desk, cap, leave) by { NothingDone(cap, leave); }
    assert desk.papers == Papers({}, {}, {});
    OpenedStands();
    DecisionsReachPolicy();
    var act := Elsewhere(Move(desk, Diagnosed));
    StandsAfterMove(desk, Diagnosed, Detected, 0, 1);
    Onward(acts, desk, act, cap, leave);
    acts, desk := acts + [act], Work(desk, act, cap);
    acts, desk := Estimated(acts, desk, cap, leave, Diagnosed, 0, 2);
    act := Optimize(0, Noted("RECOMMENDATION_RECORDED", "value_optimizer"));
    Onward(acts, desk, act, cap, leave);
    var found := Work(desk, act, cap);
    assert found == desk.(tickets := desk.tickets + {Found(0)}) && Stands(found, Diagnosed, 0, 5) by {
      SameFileStands(desk, found, Diagnosed, 0, 5);
    }
    acts, desk := Entered(acts + [act], found, cap, leave, Diagnosed, 0, 5);
  }

  lemma NothingDone(cap: int, leave: Leave)
    ensures Reached([], NewDesk(0, 0), cap, leave)
  {}

  lemma SameFileStands(desk: Desk, other: Desk, state: CaseState, cycles: int, records: int)
    requires Stands(desk, state, cycles, records)
    ensures desk.file.row.cycles == cycles && desk.file.row.state == state
    ensures other.file == desk.file ==> Stands(other, state, cycles, records)
  {
    hide Invariant;
  }

  /** One review below the cap, and the decision it leads to. */
  lemma OneReview(acts: seq<Act>, desk: Desk, cap: int, leave: Leave, n: int, records: int)
    returns (longer: seq<Act>, after: Desk)
    requires Waiting(acts, desk, cap, leave, n, records) && 0 <= n < cap && n < COUNTER_CEILING && records < 100
    ensures Waiting(longer, after, cap, leave, n + 1, records + 3)
  {
    hide Reached, Stands, Step, RuleFor, Filed;
    DecisionsReachPolicy();
    SameFileStands(desk, desk, PolicyCheck, n, records);
    var act := Act.Review(0, false, true, Noted("RECOMMENDATION_RECORDED", "value_optimizer"));
    var papers := desk.papers;
    var filed := Papers(papers.diagnosed + {n}, papers.estimated + {n}, papers.recommended + {n});
    StandsAfterFiling(desk, act.notes, filed, {Ready(desk.file.row.version, n)}, PolicyCheck, n, records);
    Onward(acts, desk, act, cap, leave);
    longer, after := Entered(acts + [act], Work(desk, act, cap), cap, leave, PolicyCheck, n, records + 1);
  }

  /** Review after review, each below the cap, to any number of cycles up to it. */
  lemma {:induction false} Reviewed(cap: int, leave: Leave, cycles: int) returns (acts: seq<Act>, desk: Desk)
    requires 1 <= cycles <= cap && cycles <= COUNTER_CEILING
    ensures Waiting(acts, desk, cap, leave, cycles, 3 * cycles + 4)
    decreases cycles
  {
    hide Waiting;
    if cycles == 1 {
      acts, desk := FirstDecision(cap, leave);
    } else {
      acts, desk := Reviewed(cap, leave, cycles - 1);
      acts, desk := OneReview(acts, desk, cap, leave, cycles - 1, 3 * cycles + 1);
    }
  }

  /** Late handlers file the papers of a cycle at the cap, and the optimizer's entry passes it. */
  lemma LateFilingPasses(cap: int, leave: Leave) returns (acts: seq<Act>, desk: Desk)
    requires leave.lateFiling && 0 <= cap < COUNTER_CEILING
    ensures Reached(acts, desk, cap, leave) && desk.file.row.cycles == cap + 1
  {
    hide Reached, Stands, RuleFor;
    DecisionsReachPolicy();
    if cap == 0 {
      acts, desk := FirstDecision(cap, leave);
      SameFileStands(desk, desk, PolicyCheck, 1, 7);
    } else {
      acts, desk := Reviewed(cap, leave, cap);
      acts, desk := Estimated(acts, desk, cap, leave, PolicyCheck, cap, 3 * cap + 4);
      acts, desk := Entered(acts, desk, cap, leave, PolicyCheck, cap, 3 * cap + 7);
      SameFileStands(desk, desk, PolicyCheck, cap + 1, 3 * cap + 9);
    }
  }

  /** The second optimizer job reads the version of a case that has reached the cap, and its entry passes it. */
  lemma LateReadingPasses(cap: int, leave: Leave) returns (acts: seq<Act>, desk: Desk)
    requires leave.lateReading && 1 <= cap < COUNTER_CEILING
    ensures Reached(acts, desk, cap, leave) && desk.file.row.cycles == cap + 1
  {
    hide Reached, Stands, RuleFor;
    DecisionsReachPolicy();
    acts, desk := Reviewed(cap, leave, cap);
    var act := ReRead(0);
    Onward(acts, desk, act, cap, leave);
    var again := Work(desk, act, cap);
    SameFileStands(desk, again, PolicyCheck, cap, 3 * cap + 4);
    acts, desk := Entered(acts + [act], again, cap, leave, PolicyCheck, cap, 3 * cap + 4);
    SameFileStands(desk, desk, PolicyCheck, cap + 1, 3 * cap + 6);
  }

  // ---- Exactly when the cap holds ----

  /** No run of the handlers takes a case past the cap. */
  ghost predicate CapKept(cap: int, leave: Leave) {
    forall w, start, acts | AllPermitted(NewDesk(w, start), acts, cap, leave) ::
      DeskAfter(NewDesk(w, start), acts, cap).file.row.cycles <= cap
  }

  /**
    A cap of at least one, and below the schema's own ceiling, is kept exactly when no estimation handler files at a
    cycle count that has reached it and no optimizer acts on a version read in a later cycle than its recommendation.
    A cap of zero is kept exactly when no estimation handler files at all.
  */
  lemma OptimizerKeepsCapIff(cap: int, leave: Leave)
    ensures CapKept(cap, leave) <==>
      cap >= COUNTER_CEILING || (cap >= 0 && !leave.lateFiling && (cap == 0 || !leave.lateReading))
  {
    hide DeskAfter, AllPermitted, NewDesk, Invariant;
    if cap >= COUNTER_CEILING {
      forall w, start, acts | AllPermitted(NewDesk(w, start), acts, cap, leave)
        ensures DeskAfter(NewDesk(w, start), acts, cap).file.row.cycles <= cap
      {
        DeskKeepsInvariant(w, start, acts, cap, leave);
      }
    } else if cap < 0 {
      NegativeCap(cap, leave);
    } else if leave.lateFiling {
      var acts, desk := LateFilingPasses(cap, leave);
    } else if cap > 0 && leave.lateReading {
      var acts, desk := LateReadingPasses(cap, leave);
    } else {
      forall w, start, acts | AllPermitted(NewDesk(w, start), acts, cap, leave)
        ensures DeskAfter(NewDesk(w, start), acts, cap).file.row.cycles <= cap
      {
        PunctualKeepsCap(w, start, acts, cap, leave);
      }
    }
  }

  lemma NegativeCap(cap: int, leave: Leave)
    requires cap < 0
    ensures !CapKept(cap, leave)
  {
    hide Permitted;
    assert AllPermitted(NewDesk(0, 0), [], cap, leave) && DeskAfter(NewDesk(0, 0), [], cap) == NewDesk(0, 0);
  }

  lemma WorkKeepsInvariant(desk: Desk, act: Act, cap: int, leave: Leave)
    requires Invariant(desk.file) && Permitted(desk, act, cap, leave)
    ensures Invariant(Work(desk, act, cap).file)
  {
    hide Invariant, Step, DisposeMissed;
    match act
    case Elsewhere(moment) => StepKeepsInvariant(desk.file, moment);
    case Diagnose(now, notes) => StepKeepsInvariant(desk.file, Moment(now, WriteRecords(notes)));
    case Estimate(now, notes) => StepKeepsInvariant(desk.file, Moment(now, WriteRecords(notes)));
    case Optimize(now, notes) => StepKeepsInvariant(desk.file, Moment(now, WriteRecords(notes)));
    case ReRead(_) =>
    case Review(now, _, _, notes) => StepKeepsInvariant(desk.file, Moment(now, WriteRecords(notes)));
    case MissPromise(now, limits) => DispositionMeaning(desk.file, limits, now);
    case RefuseResend(now, limits, action, code) =>
      var move := ResendMove(desk.file.row, BoundReached(desk.file.row, limits, now), action, code);
      if move.Some? { StepKeepsInvariant(desk.file, Moment(now, Transition(move.value))); }
    case Enter(now, attempt) => StepKeepsInvariant(desk.file, Moment(now, Transition(attempt)));
  }

  lemma {:induction false} DeskKeepsInvariant(
    windowEndAt: Instant, start: Instant, acts: seq<Act>, cap: int, leave: Leave)
    requires AllPermitted(NewDesk(windowEndAt, start), acts, cap, leave)
    ensures Invariant(DeskAfter(NewDesk(windowEndAt, start), acts, cap).file)
    ensures DeskAfter(NewDesk(windowEndAt, start), acts, cap).file.row.cycles <= COUNTER_CEILING
  {
    hide Work, Permitted, LogAgrees, TokensAgree;
    var desk := NewDesk(windowEndAt, start);
    if acts == [] {
      OpenedInvariant(windowEndAt, start);
    } else {
      var n := |acts| - 1;
      assert AllPermitted(desk, acts[..n], cap, leave) by { PermittedPrefix(desk, acts, cap, leave); }
      DeskKeepsInvariant(windowEndAt, start, acts[..n], cap, leave);
      WorkKeepsInvariant(DeskAfter(desk, acts[..n], cap), acts[n], cap, leave);
    }
  }
}
