/** Short runs from the empty table in which the promise sweep does what its descriptions rule out. */
module PromiseWitnesses {
  import opened Common
  import opened Transitions
  import opened JobQueue
  import opened PromiseModel
  import opened PromiseRuns
  import opened PromiseBacklog
  import opened PromiseLifecycle

  const CONFIG := PromiseConfig(1, 0, 0, 1)

  function Promised(id: CaseId, date: Instant): PromiseEvent { Submitted(Submission(id, date, 0, 1000), CONFIG) }

  function RowOf(date: Instant, status: PromiseStatus): Promise {
    Promise(date, 0, 1000, Some(date), status, None, None, None, None)
  }

  const WAITING: StatesRead := map["older" := WaitingForOutcome, "younger" := WaitingForOutcome]

  /** Two promises on cases that wait for their outcomes, and two passes, each with room for one row. */
  const STARVING: seq<PromiseEvent> := [
    Promised("older", 10), Promised("younger", 20),
    SweepPass(["older"], 500, WAITING), SweepPass(["older"], 500, WAITING)
  ]

  lemma {:induction false} BookReaches(run: seq<PromiseEvent>, books: seq<Book>, k: nat)
    requires |books| == |run| + 1 && books[0] == EMPTY_BOOK && k <= |run|
    requires forall i :: 0 <= i < |run| ==> BookStep(books[i], run[i]) == books[i + 1]
    ensures BookAt(EMPTY_BOOK, run, k) == books[k]
  {
    if k > 0 { BookReaches(run, books, k - 1); }
  }

  function Two(status: PromiseStatus, jobs: seq<Job>): Book {
    Book(map["older" := RowOf(10, status), "younger" := RowOf(20, Recorded)], jobs)
  }

  lemma TwoRows(status: PromiseStatus, jobs: seq<Job>)
    requires status in PENDING
    ensures DuePromises(Two(status, jobs), 500) == {"older", "younger"}
    ensures BoundedPass(Two(status, jobs), Pass(500, WAITING, ["older"]), 1)
    ensures Claimable(Two(status, jobs), ["older"], 500)
  {
    assert DuePromises(Two(status, jobs), 500) == {"older", "younger"};
    assert |{"older", "younger"}| == 2;
  }

  lemma OlderSwept(status: PromiseStatus, jobs: seq<Job>)
    requires status in PENDING
    ensures BookStep(Two(status, jobs), SweepPass(["older"], 500, WAITING))
         == Two(FollowUpScheduled, Enqueue(jobs, ReviewJob("older")))
  {
    TwoRows(status, jobs);
    var b := Two(status, jobs);
    assert ["older"][..0] == [];
    assert SweepRows(b, [], 500, WAITING) == b;
    assert SweepRows(b, ["older"], 500, WAITING) == SweepRow(b, "older", 500, WAITING);
  }

  lemma ReviewQueuedOnce()
    ensures Enqueue([ReviewJob("older")], ReviewJob("older")) == [ReviewJob("older")]
    ensures Enqueue([], ReviewJob("older")) == [ReviewJob("older")]
  {
    assert ReviewJob("older") in [ReviewJob("older")];
    assert PendingWith(ReviewJob("older"), CaseKey(CASE_REVIEW_KIND, "older"));
  }

  lemma BothSubmitted()
    ensures var b1 := Book(map["older" := RowOf(10, Recorded)], []);
      BookStep(EMPTY_BOOK, STARVING[0]) == b1 && BookStep(b1, STARVING[1]) == Two(Recorded, [])
  {}

  /** The tables the run goes through. */
  lemma StarvingTables()
    ensures BookAt(EMPTY_BOOK, STARVING, 2) == Two(Recorded, [])
    ensures BookAt(EMPTY_BOOK, STARVING, 3) == Two(FollowUpScheduled, [ReviewJob("older")])
    ensures BookAt(EMPTY_BOOK, STARVING, 4) == BookAt(EMPTY_BOOK, STARVING, 3)
  {
    hide BookStep, BookAt, Enqueue, ReviewJob;
    BothSubmitted();
    OlderSwept(Recorded, []);
    OlderSwept(FollowUpScheduled, [ReviewJob("older")]);
    ReviewQueuedOnce();
    var scheduled := Two(FollowUpScheduled, [ReviewJob("older")]);
    var books := [EMPTY_BOOK, Book(map["older" := RowOf(10, Recorded)], []), Two(Recorded, []), scheduled, scheduled];
    BookReaches(STARVING, books, 2);
    BookReaches(STARVING, books, 3);
    BookReaches(STARVING, books, 4);
  }

  lemma OlderFallsThrough(jobs: seq<Job>)
    ensures FallsThrough(Two(FollowUpScheduled, jobs), "older", 500, WAITING)
    ensures Taking(Two(FollowUpScheduled, jobs), ["older"], 500, WAITING, {AlreadyScheduled}) == 1
  {
    assert ["older"][..0] == [];
    assert Taking(Two(FollowUpScheduled, jobs), [], 500, WAITING, {AlreadyScheduled}) == 0;
  }

  /** Both passes are full and legal. The second claims what the first did, counts nothing, and the other row waits. */
  lemma StarvationHappens()
    ensures OrderlyRun(STARVING)
    ensures var b2, b3 := BookAt(EMPTY_BOOK, STARVING, 2), BookAt(EMPTY_BOOK, STARVING, 3);
      var b4 := BookAt(EMPTY_BOOK, STARVING, 4);
      var pass := Pass(500, WAITING, ["older"]);
      && BoundedPass(b2, pass, 1) && BoundedPass(b3, pass, 1) && b4 == b3
      && "younger" in b4.promises && b4.promises["younger"].status == Recorded && "younger" in DuePromises(b4, 500)
      && "older" in b3.promises && FallsThrough(b3, "older", 500, WAITING)
      && Taking(b3, ["older"], 500, WAITING, {AlreadyScheduled}) == 1
  {
    hide BookAt, BookStep, BoundedPass, FallsThrough, Taking, DuePromises, ReviewJob;
    StarvingTables();
    TwoRows(Recorded, []);
    TwoRows(FollowUpScheduled, [ReviewJob("older")]);
    OlderFallsThrough([ReviewJob("older")]);
  }

  const STOPPED_CASE: StatesRead := map["older" := Stopped]

  /** A promise whose case is stopped before its follow-up comes due: no pass at that time may claim it. */
  lemma EndedCasePromiseLeft(limit: nat, pass: Pass)
    requires pass.now == 5 && pass.seen == STOPPED_CASE
    requires BoundedPass(BookAt(EMPTY_BOOK, [Promised("older", 10)], 1), pass, limit)
    ensures var b := BookAt(EMPTY_BOOK, [Promised("older", 10)], 1);
      && "older" in b.promises && b.promises["older"].status == Recorded && Voids(pass.seen["older"])
      && pass.claimed == [] && AfterPass(b, pass) == b
  {
    var b := Book(map["older" := RowOf(10, Recorded)], []);
    BookReaches([Promised("older", 10)], [EMPTY_BOOK, b], 1);
    assert DuePromises(b, 5) == {};
    BatchIsDue(b, pass, limit);
  }
}
