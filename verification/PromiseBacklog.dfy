/** Which due promises a bounded pass reaches, and which it never does, however often it is repeated. */
module PromiseBacklog {
  import opened Common
  import opened JobQueue
  import opened Oldest
  import opened PromiseModel
  import opened PromiseRuns

  // ---- One pass ----

  datatype Pass = Pass(now: Instant, seen: StatesRead, claimed: seq<CaseId>)

  /** A pass over the oldest due rows up to its limit, none of them locked by another pass. */
  ghost predicate BoundedPass(b: Book, pass: Pass, limit: nat) {
    DuePromises(b, pass.now) <= FollowUps(b).Keys
    && OldestFirst(pass.claimed, DuePromises(b, pass.now), FollowUps(b), limit)
  }

  function AfterPass(b: Book, pass: Pass): Book { SweepRows(b, pass.claimed, pass.now, pass.seen) }

  lemma BatchIsDue(b: Book, pass: Pass, limit: nat)
    requires BoundedPass(b, pass, limit)
    ensures |pass.claimed| == Min(limit, |DuePromises(b, pass.now)|) && Distinct(pass.claimed)
    ensures forall id :: id in pass.claimed ==> id in b.promises && id in DuePromises(b, pass.now)
  {}

  /** A case the pass finds ended, other than recovered: the one kind of case whose promise leaves the due rows. */
  predicate Ended(seen: StatesRead, id: CaseId) { id in seen && Voids(seen[id]) }

  /** What a pass leaves due: every row but the claimed ones of ended cases, each with the follow-up it had. */
  lemma DueAfterPass(b: Book, pass: Pass)
    requires Claimable(b, pass.claimed, pass.now)
    ensures var after := AfterPass(b, pass);
      && after.promises.Keys == b.promises.Keys && FollowUps(after) == FollowUps(b)
      && (forall now, id :: pass.now <= now ==>
            (id in DuePromises(after, now) <==>
               id in DuePromises(b, now) && !(id in pass.claimed && Ended(pass.seen, id))))
      && (forall id :: id in b.promises && id !in pass.claimed ==> after.promises[id] == b.promises[id])
  {
    hide SweepRows, ReviewWaits;
    PassClosedForm(b, pass.claimed, pass.now, pass.seen);
    var after := AfterPass(b, pass);
    forall id | id in b.promises
      ensures after.promises[id].followUpAt == b.promises[id].followUpAt
      ensures after.promises[id].status in PENDING <==>
        b.promises[id].status in PENDING && !(id in pass.claimed && Ended(pass.seen, id))
    {
      if id in pass.claimed { assert id in DuePromises(b, pass.now); }
    }
  }

  // ---- Who stands before whom ----

  /** Due rows strictly older than a given one, and due rows other than it that are no younger. */
  function Older(b: Book, now: Instant, id: CaseId): set<CaseId>
    requires id in FollowUps(b)
  {
    set other | other in DuePromises(b, now) && FollowUps(b)[other] < FollowUps(b)[id]
  }

  function NoYounger(b: Book, now: Instant, id: CaseId): set<CaseId>
    requires id in FollowUps(b)
  {
    set other | other in DuePromises(b, now) && other != id && FollowUps(b)[other] <= FollowUps(b)[id]
  }

  /** Rows standing before it that no pass takes out: their cases have not ended, or have ended recovered. */
  function Standing(b: Book, now: Instant, seen: StatesRead, id: CaseId): set<CaseId>
    requires id in FollowUps(b)
  {
    set other | other in Older(b, now, id) && !Ended(seen, other)
  }

  /** The same with the rows of its own age among them, which may go before it or after. */
  function StandingOrTied(b: Book, now: Instant, seen: StatesRead, id: CaseId): set<CaseId>
    requires id in FollowUps(b)
  {
    set other | other in NoYounger(b, now, id) && !Ended(seen, other)
  }

  /** A due row is claimed when fewer than `limit` rows stand before it, and only if fewer than `limit` are older. */
  lemma ClaimedIffReached(b: Book, claimed: seq<CaseId>, now: Instant, limit: nat, id: CaseId)
    requires id in DuePromises(b, now) && id in FollowUps(b) && DuePromises(b, now) <= FollowUps(b).Keys
    requires OldestFirst(claimed, DuePromises(b, now), FollowUps(b), limit)
    ensures |NoYounger(b, now, id)| < limit ==> id in claimed
    ensures id in claimed ==> |Older(b, now, id)| < limit
  {
    DistinctSize(claimed);
    var taken, due := Elements(claimed), DuePromises(b, now);
    if id !in claimed {
      SmallerWithout(taken, due, id);
      forall other | other in taken ensures other in NoYounger(b, now, id) { assert other in claimed; }
      SizeMonotone(taken, NoYounger(b, now, id));
    } else {
      forall other | other in Older(b, now, id) ensures other in taken { assert other in claimed; }
      SmallerWithout(Older(b, now, id), taken, id);
    }
  }

  /** A row a full batch has passed over: the whole batch stands before it or is tied with it. */
  lemma PassedOver(b: Book, pass: Pass, limit: nat, id: CaseId)
    requires BoundedPass(b, pass, limit)
    requires id in DuePromises(b, pass.now) && id !in pass.claimed && id in FollowUps(b)
    ensures |Elements(pass.claimed)| == limit && Elements(pass.claimed) <= NoYounger(b, pass.now, id)
  {
    BatchIsDue(b, pass, limit);
    DistinctSize(pass.claimed);
    var taken := Elements(pass.claimed);
    SmallerWithout(taken, DuePromises(b, pass.now), id);
    forall other | other in taken ensures other in NoYounger(b, pass.now, id) { assert other in pass.claimed; }
  }

  /** While a whole batch is older than the row, a batch holds older rows only, and as many as it can. */
  lemma OlderFillTheBatch(b: Book, pass: Pass, limit: nat, id: CaseId)
    requires BoundedPass(b, pass, limit) && id in DuePromises(b, pass.now) && id in FollowUps(b)
    requires |Older(b, pass.now, id)| >= limit
    ensures id !in pass.claimed
    ensures |Elements(pass.claimed)| == limit && Elements(pass.claimed) <= Older(b, pass.now, id)
  {
    ClaimedIffReached(b, pass.claimed, pass.now, limit, id);
    PassedOver(b, pass, limit, id);
    var taken, older := Elements(pass.claimed), Older(b, pass.now, id);
    forall other | other in taken ensures other in older {
      if other !in older {
        forall k | k in older ensures k in taken { assert k !in pass.claimed ==> other in pass.claimed; }
        SmallerWithout(older, taken, other);
      }
    }
  }

  // ---- Passes repeated at one instant, over cases that stay as they are ----

  function AfterPasses(b: Book, passes: seq<Pass>): Book {
    if passes == [] then b else AfterPass(AfterPasses(b, passes[..|passes| - 1]), passes[|passes| - 1])
  }

  ghost predicate AllBounded(b: Book, passes: seq<Pass>, limit: nat) {
    forall i :: 0 <= i < |passes| ==> BoundedPass(AfterPasses(b, passes[..i]), passes[i], limit)
  }

  predicate AllAt(passes: seq<Pass>, now: Instant, seen: StatesRead) {
    forall i :: 0 <= i < |passes| ==> passes[i].now == now && passes[i].seen == seen
  }

  predicate Claims(passes: seq<Pass>, id: CaseId) { exists i :: 0 <= i < |passes| && id in passes[i].claimed }

  /** A row still waiting, with the same rows standing before it or tied with it. */
  ghost predicate Waits(b: Book, after: Book, now: Instant, seen: StatesRead, id: CaseId)
    requires id in FollowUps(b)
  {
    && FollowUps(after) == FollowUps(b) && id in DuePromises(after, now)
    && Standing(after, now, seen, id) == Standing(b, now, seen, id)
    && StandingOrTied(after, now, seen, id) == StandingOrTied(b, now, seen, id)
  }

  /** One pass that misses a waiting row leaves it waiting, and takes the ended cases' rows of its batch out. */
  lemma MissedRow(b: Book, pass: Pass, limit: nat, id: CaseId)
    requires BoundedPass(b, pass, limit)
    requires id in DuePromises(b, pass.now) && id in FollowUps(b) && id !in pass.claimed
    ensures var after := AfterPass(b, pass);
      && Waits(b, after, pass.now, pass.seen, id)
      && forall other ::
           && (other in Older(after, pass.now, id) <==>
                 other in Older(b, pass.now, id) && !(other in pass.claimed && Ended(pass.seen, other)))
           && (other in NoYounger(after, pass.now, id) <==>
                 other in NoYounger(b, pass.now, id) && !(other in pass.claimed && Ended(pass.seen, other)))
  {
    hide OldestFirst, AfterPass, Ended;
    BatchIsDue(b, pass, limit);
    DueAfterPass(b, pass);
    var after := AfterPass(b, pass);
    hide DuePromises, FollowUps;
    forall other
      ensures other in Older(after, pass.now, id) <==>
        other in Older(b, pass.now, id) && !(other in pass.claimed && Ended(pass.seen, other))
      ensures other in NoYounger(after, pass.now, id) <==>
        other in NoYounger(b, pass.now, id) && !(other in pass.claimed && Ended(pass.seen, other))
    {
      assert other in DuePromises(after, pass.now) <==>
        other in DuePromises(b, pass.now) && !(other in pass.claimed && Ended(pass.seen, other));
    }
    assert Standing(after, pass.now, pass.seen, id) == Standing(b, pass.now, pass.seen, id);
    assert StandingOrTied(after, pass.now, pass.seen, id) == StandingOrTied(b, pass.now, pass.seen, id);
  }

  /** A batch the staying rows cannot fill holds a row of an ended case, and so what is before the row shrinks. */
  lemma SomeLeave(before: set<CaseId>, after: set<CaseId>, staying: set<CaseId>, pass: Pass, limit: nat)
    requires |Elements(pass.claimed)| == limit && Elements(pass.claimed) <= before && |staying| < limit
    requires forall other :: other in staying <==> other in before && !Ended(pass.seen, other)
    requires forall other :: other in after <==> other in before && !(other in pass.claimed && Ended(pass.seen, other))
    ensures |after| < |before|
  {
    var batch := Elements(pass.claimed);
    if batch <= staying {
      SizeMonotone(batch, staying);
      assert false;
    }
    var gone :| gone in batch && gone !in staying;
    SmallerWithout(after, before, gone);
  }

  /** As long as no pass claims it, a row waits, and each pass takes something out from before it or has no room to. */
  lemma {:induction false} WaitingRow(
    b: Book, passes: seq<Pass>, limit: nat, now: Instant, seen: StatesRead, id: CaseId, k: nat)
    requires AllBounded(b, passes, limit) && AllAt(passes, now, seen) && k <= |passes|
    requires id in DuePromises(b, now) && id in FollowUps(b)
    requires forall i :: 0 <= i < k ==> id !in passes[i].claimed
    ensures var after := AfterPasses(b, passes[..k]);
      && Waits(b, after, now, seen, id)
      && (|StandingOrTied(b, now, seen, id)| < limit ==>
            |NoYounger(after, now, id)| + k <= |NoYounger(b, now, id)|)
  {
    hide OldestFirst, AfterPass, DuePromises, Ended;
    if k > 0 {
      WaitingRow(b, passes, limit, now, seen, id, k - 1);
      assert passes[..k][..k - 1] == passes[..k - 1];
      var mid, pass := AfterPasses(b, passes[..k - 1]), passes[k - 1];
      MissedRow(mid, pass, limit, id);
      PassedOver(mid, pass, limit, id);
      if |StandingOrTied(b, now, seen, id)| < limit {
        SomeLeave(NoYounger(mid, now, id), NoYounger(AfterPass(mid, pass), now, id),
                  StandingOrTied(mid, now, seen, id), pass, limit);
      }
    }
  }

  /** Rows enough to fill a batch stand before it: no pass of any number claims the row. */
  lemma {:induction false} ShutOut(
    b: Book, passes: seq<Pass>, limit: nat, now: Instant, seen: StatesRead, id: CaseId, k: nat)
    requires AllBounded(b, passes, limit) && AllAt(passes, now, seen) && k <= |passes|
    requires id in DuePromises(b, now) && id in FollowUps(b)
    requires |Standing(b, now, seen, id)| >= limit
    ensures forall i :: 0 <= i < k ==> id !in passes[i].claimed
  {
    hide AfterPass, OldestFirst;
    if k > 0 {
      ShutOut(b, passes, limit, now, seen, id, k - 1);
      WaitingRow(b, passes, limit, now, seen, id, k - 1);
      var mid := AfterPasses(b, passes[..k - 1]);
      assert BoundedPass(mid, passes[k - 1], limit);
      ClaimedIffReached(mid, passes[k - 1].claimed, now, limit, id);
      SizeMonotone(Standing(mid, now, seen, id), Older(mid, now, id));
    }
  }

  /**
    At a fixed instant and fixed case states, no pass claims a due row while `limit` older rows stay; and one pass
    more than there are rows before it or of its age is enough while fewer than `limit` of those stay. Between the
    two lies only the order of ties.
  */
  lemma ReachedIff(b: Book, passes: seq<Pass>, limit: nat, now: Instant, seen: StatesRead, id: CaseId)
    requires id in DuePromises(b, now) && id in FollowUps(b)
    requires AllBounded(b, passes, limit) && AllAt(passes, now, seen)
    ensures Claims(passes, id) ==> |Standing(b, now, seen, id)| < limit
    ensures |passes| > |NoYounger(b, now, id)| && |StandingOrTied(b, now, seen, id)| < limit ==> Claims(passes, id)
    ensures |passes| > |NoYounger(b, now, id)| && StandingOrTied(b, now, seen, id) == Standing(b, now, seen, id) ==>
      (Claims(passes, id) <==> |Standing(b, now, seen, id)| < limit)
  {
    hide AllBounded, AfterPasses, Standing, StandingOrTied, Older, NoYounger;
    if |Standing(b, now, seen, id)| >= limit {
      ShutOut(b, passes, limit, now, seen, id, |passes|);
    }
    if !Claims(passes, id) {
      WaitingRow(b, passes, limit, now, seen, id, |passes|);
    }
  }

  lemma DueHaveFollowUps(b: Book, now: Instant)
    ensures DuePromises(b, now) <= FollowUps(b).Keys
  {}

  /** A repetition made one pass longer. */
  lemma OnePassLonger(b: Book, passes: seq<Pass>, pass: Pass, limit: nat)
    requires AllBounded(b, passes, limit) && BoundedPass(AfterPasses(b, passes), pass, limit)
    ensures AllBounded(b, passes + [pass], limit)
    ensures AfterPasses(b, passes + [pass]) == AfterPass(AfterPasses(b, passes), pass)
  {
    hide BoundedPass, AfterPass;
    var longer := passes + [pass];
    assert longer[..|passes|] == passes;
    forall i | 0 <= i < |longer| ensures BoundedPass(AfterPasses(b, longer[..i]), longer[i], limit) {
      assert i < |passes| ==> longer[..i] == passes[..i];
    }
  }

  /** A legal batch that takes the row, when the older rows leave room for it. */
  lemma {:induction false} TakingBatch(due: set<CaseId>, age: map<CaseId, int>, limit: nat, id: CaseId)
    returns (batch: seq<CaseId>)
    requires due <= age.Keys && id in due && |set other | other in due && age[other] < age[id]| < limit
    ensures OldestFirst(batch, due, age, limit) && id in batch
    decreases limit
  {
    hide OldestFirst;
    var older := set other | other in due && age[other] < age[id];
    if older == {} {
      assert forall other :: other in due ==> other !in older;
      var others := SomeBatch(due - {id}, age, limit - 1);
      OldestThenRest(id, others, due, age, limit);
      batch := [id] + others;
    } else {
      var k := SomeOldest(due, age);
      assert k in older by { var x :| x in older; }
      assert (set other | other in due - {k} && age[other] < age[id]) == older - {k};
      var others := TakingBatch(due - {k}, age, limit - 1, id);
      OldestThenRest(k, others, due, age, limit);
      batch := [k] + others;
    }
  }

  /** A legal batch that leaves the row, when the rows before it or of its age can fill it. */
  lemma LeavingBatch(due: set<CaseId>, age: map<CaseId, int>, limit: nat, id: CaseId) returns (batch: seq<CaseId>)
    requires due <= age.Keys && id in due && |set other | other in due && other != id && age[other] <= age[id]| >= limit
    ensures OldestFirst(batch, due, age, limit) && id !in batch
  {
    var before := set other | other in due && other != id && age[other] <= age[id];
    var rest := due - {id};
    SizeMonotone(before, rest);
    batch := SomeBatch(rest, age, limit);
    forall x, k | x in batch && k in due && k !in batch ensures age[x] <= age[k] {
      if k == id && age[x] > age[id] {
        forall y | y in before ensures y in Elements(batch) { assert y in rest; }
        DistinctSize(batch);
        SmallerWithout(before, Elements(batch), x);
      }
    }
  }

  /** While fewer than `limit` older rows stay, the passes can be continued until one claims the row. */
  lemma {:induction false} ClaimingPasses(
    b: Book, passes: seq<Pass>, limit: nat, now: Instant, seen: StatesRead, id: CaseId) returns (longer: seq<Pass>)
    requires AllBounded(b, passes, limit) && AllAt(passes, now, seen) && id in FollowUps(AfterPasses(b, passes))
    requires id in DuePromises(AfterPasses(b, passes), now)
    requires |Standing(AfterPasses(b, passes), now, seen, id)| < limit
    ensures AllBounded(b, longer, limit) && AllAt(longer, now, seen) && Claims(longer, id)
    decreases |Older(AfterPasses(b, passes), now, id)|
  {
    hide OldestFirst, DuePromises, FollowUps, AfterPass, AllBounded, AfterPasses, Ended;
    var mid := AfterPasses(b, passes);
    DueHaveFollowUps(mid, now);
    var pass;
    if |Older(mid, now, id)| < limit {
      assert Older(mid, now, id)
        == set other | other in DuePromises(mid, now) && FollowUps(mid)[other] < FollowUps(mid)[id];
      var batch := TakingBatch(DuePromises(mid, now), FollowUps(mid), limit, id);
      pass := Pass(now, seen, batch);
      OnePassLonger(b, passes, pass, limit);
      longer := passes + [pass];
      assert longer[|passes|] == pass;
    } else {
      var batch := SomeBatch(DuePromises(mid, now), FollowUps(mid), limit);
      pass := Pass(now, seen, batch);
      OnePassLonger(b, passes, pass, limit);
      OlderFillTheBatch(mid, pass, limit, id);
      MissedRow(mid, pass, limit, id);
      SomeLeave(Older(mid, now, id), Older(AfterPass(mid, pass), now, id), Standing(mid, now, seen, id), pass, limit);
      longer := ClaimingPasses(b, passes + [pass], limit, now, seen, id);
    }
  }

  /** While `limit` rows before it or of its age stay, the passes can go on without the row for as long as they like. */
  lemma {:induction false} LeavingPasses(
    b: Book, limit: nat, now: Instant, seen: StatesRead, id: CaseId, n: nat) returns (passes: seq<Pass>)
    requires id in DuePromises(b, now) && id in FollowUps(b) && |StandingOrTied(b, now, seen, id)| >= limit
    ensures |passes| == n && AllBounded(b, passes, limit) && AllAt(passes, now, seen) && !Claims(passes, id)
    ensures Waits(b, AfterPasses(b, passes), now, seen, id)
  {
    hide OldestFirst, DuePromises, FollowUps, AfterPass, Ended, AllBounded;
    if n == 0 {
      passes := [];
      NothingYet(b, limit);
    } else {
      passes := LeavingPasses(b, limit, now, seen, id, n - 1);
      var mid := AfterPasses(b, passes);
      DueHaveFollowUps(mid, now);
      SizeMonotone(StandingOrTied(mid, now, seen, id), NoYounger(mid, now, id));
      assert NoYounger(mid, now, id)
        == set other | other in DuePromises(mid, now) && other != id && FollowUps(mid)[other] <= FollowUps(mid)[id];
      var batch := LeavingBatch(DuePromises(mid, now), FollowUps(mid), limit, id);
      var pass := Pass(now, seen, batch);
      OnePassLonger(b, passes, pass, limit);
      MissedRow(mid, pass, limit, id);
      assert (passes + [pass])[..n - 1] == passes;
      NoMoreClaims(passes + [pass], id);
      passes := passes + [pass];
    }
  }

  lemma NothingYet(b: Book, limit: nat)
    ensures AllBounded(b, [], limit) && AfterPasses(b, []) == b
  {}

  /** Some repetition of the pass claims the row exactly when the strictly older rows that stay leave room for it. */
  lemma SomePassClaimsIff(b: Book, limit: nat, now: Instant, seen: StatesRead, id: CaseId)
    requires id in DuePromises(b, now) && id in FollowUps(b)
    ensures (exists passes :: AllBounded(b, passes, limit) && AllAt(passes, now, seen) && Claims(passes, id))
        <==> |Standing(b, now, seen, id)| < limit
  {
    hide AllBounded, AllAt, Claims, Standing, AfterPasses;
    if |Standing(b, now, seen, id)| < limit {
      NothingYet(b, limit);
      assert AllAt([], now, seen) by { NoPassesAt(now, seen); }
      var passes := ClaimingPasses(b, [], limit, now, seen, id);
    }
    forall passes | AllBounded(b, passes, limit) && AllAt(passes, now, seen) && Claims(passes, id)
      ensures |Standing(b, now, seen, id)| < limit
    {
      ReachedIff(b, passes, limit, now, seen, id);
    }
  }

  lemma NoPassesAt(now: Instant, seen: StatesRead)
    ensures AllAt([], now, seen)
  {}

  /** Every repetition of at least this many passes claims the row, however ties fall. */
  ghost predicate SureWithin(b: Book, n: nat, limit: nat, now: Instant, seen: StatesRead, id: CaseId) {
    forall passes :: |passes| >= n && AllBounded(b, passes, limit) && AllAt(passes, now, seen) ==> Claims(passes, id)
  }

  /**
    The row is sure to be claimed within some number of passes exactly when the rows before it or of its age that
    stay leave room for it, and then within one more than there are such rows.
  */
  lemma EveryPassClaimsIff(b: Book, limit: nat, now: Instant, seen: StatesRead, id: CaseId)
    requires id in DuePromises(b, now) && id in FollowUps(b)
    ensures (exists n :: SureWithin(b, n, limit, now, seen, id)) <==> |StandingOrTied(b, now, seen, id)| < limit
    ensures |StandingOrTied(b, now, seen, id)| < limit ==>
      SureWithin(b, |NoYounger(b, now, id)| + 1, limit, now, seen, id)
  {
    hide AllBounded, AllAt, Claims, StandingOrTied, NoYounger, AfterPasses;
    if |StandingOrTied(b, now, seen, id)| < limit {
      forall passes | |passes| > |NoYounger(b, now, id)| && AllBounded(b, passes, limit) && AllAt(passes, now, seen)
        ensures Claims(passes, id)
      {
        ReachedIff(b, passes, limit, now, seen, id);
      }
      assert SureWithin(b, |NoYounger(b, now, id)| + 1, limit, now, seen, id);
    } else {
      forall n ensures !SureWithin(b, n, limit, now, seen, id) {
        var passes := LeavingPasses(b, limit, now, seen, id, n);
      }
    }
  }

  // ---- Passes at instants of their own, over cases that move ----

  /** A row due at a pass that does not find its case ended other than recovered: claimed or not, it stays due. */
  predicate Kept(b: Book, id: CaseId, pass: Pass) {
    id in b.promises && Due(b.promises[id], pass.now) && !Ended(pass.seen, id)
  }

  ghost predicate StillStanding(b: Book, after: Book, blocking: set<CaseId>, id: CaseId) {
    && FollowUps(after) == FollowUps(b)
    && id in after.promises && id in b.promises && after.promises[id] == b.promises[id]
    && forall other :: other in blocking ==>
         && other in b.promises && other in after.promises
         && after.promises[other].followUpAt == b.promises[other].followUpAt
         && (b.promises[other].status in PENDING ==> after.promises[other].status in PENDING)
  }

  lemma OnePassKeeps(b: Book, pass: Pass, limit: nat, blocking: set<CaseId>, id: CaseId)
    requires id in FollowUps(b) && |blocking| >= limit && BoundedPass(b, pass, limit)
    requires forall other :: other in blocking ==>
      other in FollowUps(b) && FollowUps(b)[other] < FollowUps(b)[id] && Kept(b, other, pass)
    ensures id !in pass.claimed && StillStanding(b, AfterPass(b, pass), blocking, id)
  {
    hide OldestFirst, AfterPass;
    BatchIsDue(b, pass, limit);
    DueAfterPass(b, pass);
    if id in pass.claimed {
      ClaimedIffReached(b, pass.claimed, pass.now, limit, id);
      SizeMonotone(blocking, Older(b, pass.now, id));
    }
    forall other | other in blocking
      ensures other in AfterPass(b, pass).promises && AfterPass(b, pass).promises[other].status in PENDING
      ensures AfterPass(b, pass).promises[other].followUpAt == b.promises[other].followUpAt
    {
      assert other in DuePromises(b, pass.now);
      assert other in DuePromises(AfterPass(b, pass), pass.now);
      assert FollowUps(AfterPass(b, pass))[other] == FollowUps(b)[other];
    }
  }

  lemma StandsStill(b: Book, blocking: set<CaseId>, id: CaseId)
    requires id in FollowUps(b) && forall other :: other in blocking ==> other in FollowUps(b)
    ensures StillStanding(b, b, blocking, id)
  {}

  lemma OnePassMore(b: Book, mid: Book, pass: Pass, limit: nat, blocking: set<CaseId>, id: CaseId)
    requires id in FollowUps(b) && |blocking| >= limit
    requires StillStanding(b, mid, blocking, id) && BoundedPass(mid, pass, limit)
    requires forall other :: other in blocking ==>
      other in FollowUps(b) && FollowUps(b)[other] < FollowUps(b)[id] && Kept(b, other, pass)
    ensures id !in pass.claimed && StillStanding(b, AfterPass(mid, pass), blocking, id)
  {
    hide BoundedPass, AfterPass, Ended;
    OnePassKeeps(mid, pass, limit, blocking, id);
  }

  /**
    A full batch of such rows shuts out every younger one, pass after pass, at whatever instants and whatever
    their cases do meanwhile short of ending other than recovered: what a full pass leaves is not left to the next.
  */
  lemma {:induction false} BlockedRowsStarve(
    b: Book, passes: seq<Pass>, limit: nat, blocking: set<CaseId>, id: CaseId)
    requires id in FollowUps(b) && |blocking| >= limit && AllBounded(b, passes, limit)
    requires forall other :: other in blocking ==> other in FollowUps(b) && FollowUps(b)[other] < FollowUps(b)[id]
    requires forall i, other :: 0 <= i < |passes| && other in blocking ==> Kept(b, other, passes[i])
    ensures !Claims(passes, id) && StillStanding(b, AfterPasses(b, passes), blocking, id)
  {
    hide BoundedPass, AfterPass, StillStanding, Kept, AllBounded, Claims, FollowUps;
    if passes == [] {
      StandsStill(b, blocking, id);
      NoMoreClaims(passes, id);
    } else {
      var n := |passes| - 1;
      PrefixBounded(b, passes, limit);
      BlockedRowsStarve(b, passes[..n], limit, blocking, id);
      OnePassMore(b, AfterPasses(b, passes[..n]), passes[n], limit, blocking, id);
      NoMoreClaims(passes, id);
    }
  }

  lemma PrefixBounded(b: Book, passes: seq<Pass>, limit: nat)
    requires AllBounded(b, passes, limit) && passes != []
    ensures AllBounded(b, passes[..|passes| - 1], limit)
    ensures BoundedPass(AfterPasses(b, passes[..|passes| - 1]), passes[|passes| - 1], limit)
  {
    hide BoundedPass, AfterPasses;
    var shorter := passes[..|passes| - 1];
    forall i | 0 <= i < |shorter| ensures BoundedPass(AfterPasses(b, shorter[..i]), shorter[i], limit) {
      assert shorter[..i] == passes[..i];
    }
  }

  lemma NoMoreClaims(passes: seq<Pass>, id: CaseId)
    ensures passes == [] ==> !Claims(passes, id)
    ensures passes != [] && !Claims(passes[..|passes| - 1], id) && id !in passes[|passes| - 1].claimed ==>
      !Claims(passes, id)
  {
    if passes != [] && Claims(passes, id) {
      var i :| 0 <= i < |passes| && id in passes[i].claimed;
      assert i < |passes| - 1 ==> passes[..|passes| - 1][i] == passes[i];
    }
  }

  // ---- A second pass when the first was full ----

  /** Claimed rows that the pass kept due. */
  function Survivors(pass: Pass): set<CaseId> { set id | id in pass.claimed && !Ended(pass.seen, id) }

  lemma OldestFirstMeans(b: Book, pass: Pass, limit: nat, x: CaseId, y: CaseId)
    requires BoundedPass(b, pass, limit) && x in pass.claimed && y in DuePromises(b, pass.now) && y !in pass.claimed
    ensures x in FollowUps(b) && y in FollowUps(b) && FollowUps(b)[x] <= FollowUps(b)[y]
  {}

  /**
    A second pass at the same instant. A survivor of the first is claimed again, which changes nothing of its row,
    unless a row of exactly its age that the first pass did not get to is taken in its place; the room the survivors
    leave goes to the oldest of those rows.
  */
  lemma SaturatedSecondPass(b: Book, first: Pass, second: Pass, limit: nat)
    requires BoundedPass(b, first, limit) && BoundedPass(AfterPass(b, first), second, limit)
    requires second.now == first.now
    ensures var survivors, rest := Survivors(first), DuePromises(b, first.now) - Elements(first.claimed);
      var taken := Elements(second.claimed);
      && taken <= survivors + rest && survivors + rest <= FollowUps(b).Keys
      && |taken| == Min(limit, |survivors| + |rest|)
      && (forall x, y :: x in taken * rest && y in rest - taken ==> FollowUps(b)[x] <= FollowUps(b)[y])
      && (forall x, y :: x in survivors - taken && y in taken * rest ==> FollowUps(b)[x] == FollowUps(b)[y])
      && |taken * rest| >= Min(limit - |survivors|, |rest|)
      && (survivors <= taken ==> |taken * rest| == Min(limit - |survivors|, |rest|))
      && ((forall x, y :: x in survivors && y in rest ==> FollowUps(b)[x] != FollowUps(b)[y]) ==> survivors <= taken)
  {
    hide OldestFirst, AfterPass, BoundedPass, FollowUps;
    var survivors, rest := Survivors(first), DuePromises(b, first.now) - Elements(first.claimed);
    var taken := Elements(second.claimed);
    SecondDue(b, first, second, limit);
    Shares(taken, survivors, rest, limit);
    forall x, y | x in taken * rest && y in (survivors + rest) - taken ensures FollowUps(b)[x] <= FollowUps(b)[y] {
      OldestFirstMeans(AfterPass(b, first), second, limit, x, y);
    }
    forall x, y | x in survivors - taken && y in taken * rest ensures FollowUps(b)[x] <= FollowUps(b)[y] {
      assert x in first.claimed && y in DuePromises(b, first.now) && y !in first.claimed;
      OldestFirstMeans(b, first, limit, x, y);
    }
  }

  /** What is due after a pass: the survivors of its batch, and the rows it did not get to. */
  lemma DueOfSecond(b: Book, first: Pass, limit: nat)
    requires BoundedPass(b, first, limit)
    ensures var rest := DuePromises(b, first.now) - Elements(first.claimed);
      && DuePromises(AfterPass(b, first), first.now) == Survivors(first) + rest
      && Survivors(first) !! rest && |Survivors(first)| <= limit
      && FollowUps(AfterPass(b, first)) == FollowUps(b)
  {
    hide OldestFirst, AfterPass, Due;
    BatchIsDue(b, first, limit);
    DueAfterPass(b, first);
    DistinctSize(first.claimed);
    SizeMonotone(Survivors(first), Elements(first.claimed));
    hide DuePromises, FollowUps;
    var rest, after := DuePromises(b, first.now) - Elements(first.claimed), DuePromises(AfterPass(b, first), first.now);
    forall id ensures id in after <==> id in Survivors(first) + rest {
      assert id in after <==> id in DuePromises(b, first.now) && !(id in first.claimed && Ended(first.seen, id));
    }
  }

  lemma SecondDue(b: Book, first: Pass, second: Pass, limit: nat)
    requires BoundedPass(b, first, limit) && BoundedPass(AfterPass(b, first), second, limit)
    requires second.now == first.now
    ensures var survivors, rest := Survivors(first), DuePromises(b, first.now) - Elements(first.claimed);
      && DuePromises(AfterPass(b, first), second.now) == survivors + rest
      && FollowUps(AfterPass(b, first)) == FollowUps(b)
      && Elements(second.claimed) <= survivors + rest && survivors !! rest && |survivors| <= limit
      && |Elements(second.claimed)| == Min(limit, |survivors + rest|)
      && rest <= FollowUps(b).Keys && survivors + rest <= FollowUps(b).Keys
  {
    hide OldestFirst, AfterPass, DuePromises, FollowUps, Survivors;
    DueOfSecond(b, first, limit);
    BatchIsDue(AfterPass(b, first), second, limit);
    DistinctSize(second.claimed);
  }

  lemma Shares<T>(taken: set<T>, survivors: set<T>, rest: set<T>, limit: nat)
    requires taken <= survivors + rest && survivors !! rest && |survivors| <= limit
    requires |taken| == Min(limit, |survivors + rest|)
    ensures |survivors + rest| == |survivors| + |rest|
    ensures |taken * rest| >= Min(limit - |survivors|, |rest|)
    ensures survivors <= taken ==> |taken * rest| == Min(limit - |survivors|, |rest|)
    ensures survivors <= taken || exists y :: y in taken * rest
  {
    assert taken == (taken * survivors) + (taken * rest);
    SizeMonotone(taken * survivors, survivors);
    if survivors <= taken {
      assert taken * survivors == survivors;
    } else {
      var x :| x in survivors && x !in taken;
      SmallerWithout(taken * survivors, survivors, x);
      assert taken * rest != {};
      var y :| y in taken * rest;
    }
  }

  /** Being claimed again moves no survivor, and adds no review beside the one it has pending. */
  lemma SurvivorsUnmoved(b: Book, first: Pass, second: Pass, limit: nat, id: CaseId)
    requires BoundedPass(b, first, limit) && BoundedPass(AfterPass(b, first), second, limit)
    requires second.now == first.now && second.seen == first.seen && id in Survivors(first)
    ensures var after := AfterPass(b, first);
      && id in after.promises && id in AfterPass(after, second).promises
      && AfterPass(after, second).promises[id] == after.promises[id]
      && (RowAsks(after, id, second.now, second.seen) ==> ReviewWaits(after.jobs, id))
  {
    hide OldestFirst, SweepRows, RowResult, RowAsks, ReviewWaits;
    BatchIsDue(b, first, limit);
    PassClosedForm(b, first.claimed, first.now, first.seen);
    var after := AfterPass(b, first);
    BatchIsDue(after, second, limit);
    PassClosedForm(after, second.claimed, second.now, second.seen);
    SweptRowIsSettled(b, after, first.claimed, id, first.now, first.seen);
  }
}
