/** The recovery-case states and the derived table of legal transitions. */
module Transitions {
  import opened Common

  datatype CaseState =
    | New | Detected | Diagnosed | DecisionPending | PolicyCheck
    | ActionScheduled | Executing | WaitingForOutcome
    | Recovered | Stopped | Blocked | Expired | Escalated | Failed

  predicate IsTerminal(s: CaseState) {
    s.Recovered? || s.Stopped? || s.Blocked? || s.Expired? || s.Escalated? || s.Failed?
  }

  datatype CandidateAction =
    | DoNothing | Wait | Retry | DelayedRetry | PaymentLink | CustomerMessage
    | PaymentMethodUpdate | PromiseToPayFollowUp | HumanEscalation

  /** Actions the customer perceives; these consume the message counter. */
  predicate IsCustomerVisible(a: CandidateAction) {
    a == PaymentLink || a == CustomerMessage || a == PromiseToPayFollowUp
  }

  datatype TransitionKind = Forward | Reentry | Review | Termination | Reconciliation

  /** What an edge adds to the counters. The fields are naturals: no edge can take anything away. */
  datatype CounterEffects = CounterEffects(
    executedAction: nat, customerMessageIfVisible: nat, decisionCycle: nat, setsLastOutboundAt: bool)

  const NO_EFFECTS := CounterEffects(0, 0, 0, false)
  const ONE_CYCLE := CounterEffects(0, 0, 1, false)
  const OUTBOUND := CounterEffects(1, 1, 0, true)

  datatype TransitionRule = TransitionRule(
    kind: TransitionKind, effects: CounterEffects, requiresVerifiedCapture: bool, atMostOncePerCase: bool)

  type Edge = (CaseState, CaseState)

  /** The edges declared one by one, as the program lists them. */
  const DECLARED: seq<(Edge, TransitionRule)> := [
    ((New, Detected), Plain(Forward, NO_EFFECTS)),
    ((Detected, Diagnosed), Plain(Forward, NO_EFFECTS)),
    ((Diagnosed, DecisionPending), Plain(Forward, ONE_CYCLE)),
    ((DecisionPending, PolicyCheck), Plain(Forward, NO_EFFECTS)),
    ((PolicyCheck, ActionScheduled), Plain(Forward, NO_EFFECTS)),
    ((ActionScheduled, Executing), Plain(Forward, OUTBOUND)),
    ((Executing, WaitingForOutcome), Plain(Forward, NO_EFFECTS)),
    ((WaitingForOutcome, Recovered), Plain(Forward, NO_EFFECTS)),
    ((WaitingForOutcome, DecisionPending), Plain(Reentry, ONE_CYCLE)),
    ((Executing, DecisionPending), Plain(Reentry, ONE_CYCLE)),
    ((PolicyCheck, DecisionPending), Plain(Review, ONE_CYCLE))
  ]

  function Plain(kind: TransitionKind, effects: CounterEffects): TransitionRule {
    TransitionRule(kind, effects, false, false)
  }

  /** The table in closed form: the rule for an edge, or None where the edge is illegal. */
  function RuleFor(source: CaseState, target: CaseState): Option<TransitionRule> {
    if target == Recovered then
      if source == Recovered then None
      else if source == WaitingForOutcome then Some(Plain(Forward, NO_EFFECTS))
      else Some(TransitionRule(Reconciliation, NO_EFFECTS, true, true))
    else if IsTerminal(source) then None
    else if IsTerminal(target) then Some(Plain(Termination, NO_EFFECTS))
    else
      match (source, target)
      case (New, Detected) => Some(Plain(Forward, NO_EFFECTS))
      case (Detected, Diagnosed) => Some(Plain(Forward, NO_EFFECTS))
      case (Diagnosed, DecisionPending) => Some(Plain(Forward, ONE_CYCLE))
      case (DecisionPending, PolicyCheck) => Some(Plain(Forward, NO_EFFECTS))
      case (PolicyCheck, ActionScheduled) => Some(Plain(Forward, NO_EFFECTS))
      case (ActionScheduled, Executing) => Some(Plain(Forward, OUTBOUND))
      case (Executing, WaitingForOutcome) => Some(Plain(Forward, NO_EFFECTS))
      case (WaitingForOutcome, DecisionPending) => Some(Plain(Reentry, ONE_CYCLE))
      case (Executing, DecisionPending) => Some(Plain(Reentry, ONE_CYCLE))
      case (PolicyCheck, DecisionPending) => Some(Plain(Review, ONE_CYCLE))
      case _ => None
  }

  const TERMINATION_RULE := Plain(Termination, NO_EFFECTS)
  const RECONCILIATION_RULE := TransitionRule(Reconciliation, NO_EFFECTS, true, true)

  /** `after` is `before` plus one new edge per pair in `sources` x `targets`, all with the same rule. */
  ghost predicate AddsEdges<S(!new), R>(
    before: map<(S, S), R>, after: map<(S, S), R>, sources: set<S>, targets: set<S>, rule: R)
  {
    && (forall s, t :: (s, t) in after <==> (s, t) in before || (s in sources && t in targets))
    && (forall s, t :: (s, t) in before ==> (s, t) in after && after[(s, t)] == before[(s, t)])
    && (forall s, t :: (s, t) in after && (s, t) !in before ==> after[(s, t)] == rule)
  }

  method AddEdgesFrom<S(==,!new), R>(before: map<(S, S), R>, source: S, targets: set<S>, rule: R)
    returns (table: map<(S, S), R>)
    requires forall t :: t in targets ==> (source, t) !in before
    ensures AddsEdges(before, table, {source}, targets, rule)
    ensures |table| == |before| + |targets|
  {
    table := before;
    var left := targets;
    while left != {}
      invariant left <= targets
      invariant AddsEdges(before, table, {source}, targets - left, rule)
      invariant |table| == |before| + |targets| - |left|
    {
      var target :| target in left;
      assert (source, target) !in table;
      table := table[(source, target) := rule];
      left := left - {target};
    }
  }

  method AddEdges<S(==,!new), R>(before: map<(S, S), R>, sources: set<S>, targets: set<S>, rule: R)
    returns (table: map<(S, S), R>)
    requires forall s, t :: s in sources && t in targets ==> (s, t) !in before
    ensures AddsEdges(before, table, sources, targets, rule)
    ensures |table| == |before| + |sources| * |targets|
  {
    table := before;
    var left := sources;
    ghost var done: set<S>, n := {}, 0;
    while left != {}
      invariant done + left == sources && done !! left && n + |left| == |sources|
      invariant AddsEdges(before, table, done, targets, rule)
      invariant |table| == |before| + n * |targets|
    {
      var source :| source in left;
      table := AddRow(before, table, done, source, targets, rule);
      OneMore(n, |targets|);
      left, done, n := left - {source}, done + {source}, n + 1;
    }
    assert done == sources;
  }

  lemma OneMore(n: int, m: int)
    ensures (n + 1) * m == n * m + m
  {}

  /** One pass of the outer loop: the edges out of one more source. */
  method AddRow<S(==,!new), R>(
    ghost before: map<(S, S), R>, table: map<(S, S), R>, ghost done: set<S>, source: S, targets: set<S>, rule: R)
    returns (wider: map<(S, S), R>)
    requires source !in done && forall t :: t in targets ==> (source, t) !in before
    requires AddsEdges(before, table, done, targets, rule)
    ensures AddsEdges(before, wider, done + {source}, targets, rule)
    ensures |wider| == |table| + |targets|
  {
    wider := AddEdgesFrom(table, source, targets, rule);
  }

  method AddAll<K(==), V>(entries: seq<(K, V)>) returns (table: map<K, V>)
    requires forall i, j :: 0 <= i < j < |entries| ==> entries[i].0 != entries[j].0
    ensures |table| == |entries|
    ensures forall j :: 0 <= j < |entries| ==> entries[j].0 in table && table[entries[j].0] == entries[j].1
    ensures forall k :: k in table ==> exists j :: 0 <= j < |entries| && entries[j].0 == k
  {
    table := map[];
    for i := 0 to |entries|
      invariant |table| == i
      invariant forall j :: 0 <= j < i ==> entries[j].0 in table && table[entries[j].0] == entries[j].1
      invariant forall k :: k in table ==> exists j :: 0 <= j < i && entries[j].0 == k
    {
      table := table[entries[i].0 := entries[i].1];
    }
  }

  /** The edges declared one by one: everything that neither ends a case nor declares it recovered early. */
  predicate OnTheWay(s: CaseState, t: CaseState) {
    !IsTerminal(s) && (!IsTerminal(t) || (s == WaitingForOutcome && t == Recovered))
  }

  method AddDeclared() returns (table: map<Edge, TransitionRule>)
    ensures |table| == 11
    ensures forall s, t :: (s, t) in table ==> OnTheWay(s, t)
    ensures forall s, t :: OnTheWay(s, t) ==>
      RuleFor(s, t) == if (s, t) in table then Some(table[(s, t)]) else None
  {
    table := AddAll(DECLARED);
    DeclaredForm(table);
  }

  lemma DeclaredForm(table: map<Edge, TransitionRule>)
    requires forall j :: 0 <= j < |DECLARED| ==> DECLARED[j].0 in table && table[DECLARED[j].0] == DECLARED[j].1
    requires forall e :: e in table ==> exists j :: 0 <= j < |DECLARED| && DECLARED[j].0 == e
    ensures forall s, t :: (s, t) in table ==> OnTheWay(s, t)
    ensures forall s, t :: OnTheWay(s, t) ==>
      RuleFor(s, t) == if (s, t) in table then Some(table[(s, t)]) else None
  {
    forall s, t ensures (s, t) in table ==> OnTheWay(s, t) {
      if (s, t) in table {
        var j :| 0 <= j < |DECLARED| && DECLARED[j].0 == (s, t);
      }
    }
    forall s, t | OnTheWay(s, t)
      ensures RuleFor(s, t) == if (s, t) in table then Some(table[(s, t)]) else None
    {
      DeclaredOrIllegal(s, t);
    }
  }

  lemma DeclaredOrIllegal(s: CaseState, t: CaseState)
    requires OnTheWay(s, t)
    ensures RuleFor(s, t).Some? ==>
      exists j :: 0 <= j < |DECLARED| && DECLARED[j].0 == (s, t)
        && RuleFor(s, t) == Some(DECLARED[j].1)
    ensures forall j :: 0 <= j < |DECLARED| && DECLARED[j].0 == (s, t) ==>
      RuleFor(s, t) == Some(DECLARED[j].1)
  {
    if RuleFor(s, t).Some? {
      var j := match (s, t)
        case (New, _) => 0
        case (Detected, _) => 1
        case (Diagnosed, _) => 2
        case (DecisionPending, _) => 3
        case (PolicyCheck, ActionScheduled) => 4
        case (PolicyCheck, _) => 10
        case (ActionScheduled, _) => 5
        case (Executing, WaitingForOutcome) => 6
        case (Executing, _) => 9
        case (_, Recovered) => 7
        case _ => 8;
      assert DECLARED[j].0 == (s, t);
    }
  }

  /** The live states, the endings other than recovery, and the states a verified capture may end. */
  method StateSets() returns (live: set<CaseState>, endings: set<CaseState>, captured: set<CaseState>)
    ensures forall s :: s in live <==> !IsTerminal(s)
    ensures forall s :: s in endings <==> IsTerminal(s) && s != Recovered
    ensures forall s :: s in captured <==> s != Recovered && s != WaitingForOutcome
    ensures |live| == 8 && |endings| == 5 && |captured| == 12
  {
    live := {New, Detected, Diagnosed, DecisionPending, PolicyCheck, ActionScheduled, Executing,
             WaitingForOutcome};
    endings := {Stopped, Blocked, Expired, Escalated, Failed};
    captured := {Stopped, Blocked, Expired, Escalated, Failed, New, Detected, Diagnosed,
                 DecisionPending, PolicyCheck, ActionScheduled, Executing};
  }

  /** Builds the table from its declarations, loop by loop. It is the closed form, and has 63 edges. */
  method BuildTable() returns (table: map<Edge, TransitionRule>)
    ensures forall s, t :: RuleFor(s, t) == if (s, t) in table then Some(table[(s, t)]) else None
    ensures |table| == 63
  {
    var live, endings, captured := StateSets();
    table := AddDeclared();
    table := AddEdges(table, live, endings, TERMINATION_RULE);
    table := AddEdges(table, captured, {Recovered}, RECONCILIATION_RULE);
  }

  // ---- Why every case ends ----

  /** Position of a state on the loop-free way from opening to recovery. */
  function Rank(s: CaseState): nat {
    match s
    case New => 0
    case Detected => 1
    case Diagnosed => 2
    case DecisionPending => 3
    case PolicyCheck => 4
    case ActionScheduled => 5
    case Executing => 6
    case WaitingForOutcome => 7
    case Recovered => 9
    case _ => 8
  }

  /** An edge costs one decision cycle exactly when it enters DecisionPending; every other edge climbs. */
  lemma EdgeCostsACycleOrClimbs(s: CaseState, t: CaseState)
    requires RuleFor(s, t).Some?
    ensures RuleFor(s, t).value.effects.decisionCycle == if t == DecisionPending then 1 else 0
    ensures t != DecisionPending ==> Rank(s) < Rank(t)
    ensures t == DecisionPending ==> s == Diagnosed || 4 <= Rank(s) <= 7
  {}

  predicate LegalPath(path: seq<CaseState>) {
    forall i :: 0 < i < |path| ==> RuleFor(path[i - 1], path[i]).Some?
  }

  function Reentries(path: seq<CaseState>): nat {
    if |path| <= 1 then 0
    else Reentries(path[..|path| - 1]) + if path[|path| - 1] == DecisionPending then 1 else 0
  }

  /** The length of any legal walk is bounded by the rank it gains and the cycles it spends. */
  lemma {:induction false} WalkLength(path: seq<CaseState>)
    requires |path| > 0 && LegalPath(path)
    ensures |path| - 1 <= Rank(path[|path| - 1]) - Rank(path[0]) + 5 * Reentries(path)
  {
    if |path| > 1 {
      var shorter := path[..|path| - 1];
      WalkLength(shorter);
      assert shorter[|shorter| - 1] == path[|path| - 2] && shorter[0] == path[0];
      EdgeCostsACycleOrClimbs(path[|path| - 2], path[|path| - 1]);
    }
  }

  /** Every loop of the table passes through DecisionPending, so it spends a decision cycle. */
  lemma LoopsReenter(path: seq<CaseState>)
    requires |path| > 1 && LegalPath(path) && path[0] == path[|path| - 1]
    ensures exists i :: 0 < i < |path| && path[i] == DecisionPending
  {
    WalkLength(path);
    SomeReentry(path);
  }

  lemma {:induction false} SomeReentry(path: seq<CaseState>)
    requires Reentries(path) > 0
    ensures exists i :: 0 < i < |path| && path[i] == DecisionPending
  {
    var shorter := path[..|path| - 1];
    if Reentries(shorter) > 0 {
      SomeReentry(shorter);
      var i :| 0 < i < |shorter| && shorter[i] == DecisionPending;
      assert path[i] == DecisionPending;
    } else {
      assert path[|path| - 1] == DecisionPending;
    }
  }
}
