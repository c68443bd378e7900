/** The steps of a saved server deletion: their order in the plan, and the resumable
    execution that takes them one at a time. */
module DeletionSteps {

  import opened Basics

  datatype Kind =
    | Package
    | Tunnel | TrimNode | Chain | Group | TrimGroup | Subscription | EmptySubscription | Certificate | Inbound
    | NodeStep
    | Helper | ServerStep | Sweep | Verify

  datatype Status = Pending | Completed | Failed

  datatype Step = Step(kind: Kind, id: int64, status: Status, attempts: nat, hasPayload: bool)

  datatype State = Preview | Deleting | DeletePartial | Deleted

  datatype Plan = Plan(steps: seq<Step>, state: State)

  datatype PlannedNode = PlannedNode(id: int64, direct: bool)

  // ---------- order of the steps in a plan ----------

  /** Steps of one rank may come in any order; a lower rank always comes first. */
  function Rank(kind: Kind): nat {
    match kind
    case Package => 0
    case NodeStep => 2
    case Helper => 3
    case ServerStep => 4
    case Sweep => 5
    case Verify => 6
    case _ => 1
  }

  /** What identifies a step; execution never changes it. */
  datatype Label = Label(kind: Kind, id: int64)

  function Labels(steps: seq<Step>): (labels: seq<Label>)
    ensures |labels| == |steps|
  {
    seq(|steps|, i requires 0 <= i < |steps| => Label(steps[i].kind, steps[i].id))
  }

  ghost predicate Ranked(labels: seq<Label>, low: nat, high: nat) {
    && (forall i | 0 <= i < |labels| :: low <= Rank(labels[i].kind) <= high)
    && (forall i, j | 0 <= i < j < |labels| :: Rank(labels[i].kind) <= Rank(labels[j].kind))
  }

  ghost predicate Ordered(labels: seq<Label>) {
    && Ranked(labels, 0, 6)
    && labels != [] && labels[|labels| - 1].kind == Verify
    && (forall i | 0 <= i < |labels| - 1 :: labels[i].kind != Verify)
  }

  ghost predicate AllPending(steps: seq<Step>) {
    forall i | 0 <= i < |steps| :: steps[i].status == Pending
  }

  function PackageSteps(packages: seq<int64>): seq<Step> {
    seq(|packages|, i requires 0 <= i < |packages| => Step(Package, packages[i], Pending, 0, false))
  }

  function NodeSteps(nodes: seq<PlannedNode>, direct: bool): seq<Step> {
    if nodes == [] then []
    else
      NodeSteps(nodes[..|nodes| - 1], direct) +
      (if nodes[|nodes| - 1].direct == direct then [Step(NodeStep, nodes[|nodes| - 1].id, Pending, 0, false)] else [])
  }

  function ClosingSteps(server: int64): seq<Step> {
    [Step(Helper, 0, Pending, 0, false), Step(ServerStep, server, Pending, 0, false),
     Step(Sweep, 0, Pending, 0, false), Step(Verify, 0, Pending, 0, false)]
  }

  function PlanSteps(packages: seq<int64>, middle: seq<Step>, nodes: seq<PlannedNode>, server: int64): seq<Step> {
    PackageSteps(packages) + middle + NodeSteps(nodes, false) + NodeSteps(nodes, true) + ClosingSteps(server)
  }

  method CollectNodes(nodes: seq<PlannedNode>, directOnly: bool) returns (steps: seq<Step>)
    ensures steps == NodeSteps(nodes, directOnly)
  {
    steps := [];
    for i := 0 to |nodes|
      invariant steps == NodeSteps(nodes[..i], directOnly)
    {
      assert nodes[..i + 1][..i] == nodes[..i];
      if nodes[i].direct == directOnly {
        steps := steps + [Step(NodeStep, nodes[i].id, Pending, 0, false)];
      }
    }
    assert nodes[..|nodes|] == nodes;
  }

  /** The node steps: the nodes that depend on removed ones, then the server's own. */
  ghost predicate AreNodeSteps(steps: seq<Step>, nodes: seq<PlannedNode>, k: nat)
    requires k <= |steps|
  {
    && (forall i :: 0 <= i < |steps| ==> steps[i] == Step(NodeStep, steps[i].id, Pending, 0, false))
    && (forall n | n in nodes :: Step(NodeStep, n.id, Pending, 0, false) in if n.direct then steps[k..] else steps[..k])
    && (forall i :: 0 <= i < |steps| ==> PlannedNode(steps[i].id, i >= k) in nodes)
  }

  ghost predicate HasNodeSteps(steps: seq<Step>, nodes: seq<PlannedNode>) {
    exists k :: 0 <= k <= |steps| && AreNodeSteps(steps, nodes, k)
  }

  /** A whole plan: packages, the steps that edit configuration, nodes, and the closing steps, all of
      them with nothing done yet. */
  ghost predicate AreSteps(steps: seq<Step>, packages: seq<int64>, middle: seq<Step>, nodes: seq<PlannedNode>,
                           server: int64) {
    var first, last := |packages| + |middle|, |steps| - 4;
    && first <= last && steps[|packages|..first] == middle
    && (forall i :: 0 <= i < |packages| ==> steps[i] == Step(Package, packages[i], Pending, 0, false))
    && HasNodeSteps(steps[first..last], nodes)
    && steps[last..] == [Step(Helper, 0, Pending, 0, false), Step(ServerStep, server, Pending, 0, false),
                         Step(Sweep, 0, Pending, 0, false), Step(Verify, 0, Pending, 0, false)]
  }

  /** Puts the steps together: packages, then the steps that edit configuration (`middle`,
      already sorted), then nodes, then the server itself. */
  method AssembleSteps(packages: seq<int64>, middle: seq<Step>, nodes: seq<PlannedNode>, server: int64)
    returns (steps: seq<Step>)
    requires AllPending(middle) && forall i | 0 <= i < |middle| :: Rank(middle[i].kind) == 1
    ensures steps == PlanSteps(packages, middle, nodes, server)
    ensures Ordered(Labels(steps)) && AllPending(steps)
    ensures AreSteps(steps, packages, middle, nodes, server)
  {
    steps := [];
    for i := 0 to |packages|
      invariant steps == PackageSteps(packages[..i])
    {
      steps := steps + [Step(Package, packages[i], Pending, 0, false)];
    }
    assert packages[..|packages|] == packages;
    var dependants := CollectNodes(nodes, false);
    var own := CollectNodes(nodes, true);
    steps := steps + middle + dependants + own + ClosingSteps(server);
    PlanIsOrdered(packages, middle, nodes, server);
    PlanStepsAre(packages, middle, nodes, server);
  }

  lemma PlanIsOrdered(packages: seq<int64>, middle: seq<Step>, nodes: seq<PlannedNode>, server: int64)
    requires AllPending(middle) && forall i | 0 <= i < |middle| :: Rank(middle[i].kind) == 1
    ensures Ordered(Labels(PlanSteps(packages, middle, nodes, server)))
    ensures AllPending(PlanSteps(packages, middle, nodes, server))
  {
    NodeStepsKinds(nodes, false);
    NodeStepsKinds(nodes, true);
    var a, c, d, e := PackageSteps(packages), NodeSteps(nodes, false), NodeSteps(nodes, true), ClosingSteps(server);
    RankedConcat(a, middle, 0, 1, 1);
    RankedConcat(a + middle, c, 0, 2, 2);
    RankedConcat(a + middle + c, d, 0, 2, 2);
    ClosingIsOrdered(a + middle + c + d, server);
  }

  lemma RankedConcat(a: seq<Step>, b: seq<Step>, low: nat, mid: nat, high: nat)
    requires low <= mid <= high
    requires Ranked(Labels(a), low, mid) && Ranked(Labels(b), mid, high)
    requires AllPending(a) && AllPending(b)
    ensures Ranked(Labels(a + b), low, high) && AllPending(a + b)
  {
    assert Labels(a + b) == Labels(a) + Labels(b);
  }

  lemma ClosingIsOrdered(a: seq<Step>, server: int64)
    requires Ranked(Labels(a), 0, 2) && AllPending(a)
    ensures Ordered(Labels(a + ClosingSteps(server))) && AllPending(a + ClosingSteps(server))
  {
    var closing := Labels(ClosingSteps(server));
    assert closing == [Label(Helper, 0), Label(ServerStep, server), Label(Sweep, 0), Label(Verify, 0)];
    RankedConcat(a, ClosingSteps(server), 0, 2, 6);
    assert Labels(a + ClosingSteps(server)) == Labels(a) + closing;
  }

  lemma {:induction false} NodeStepsKinds(nodes: seq<PlannedNode>, direct: bool)
    ensures Ranked(Labels(NodeSteps(nodes, direct)), 2, 2) && AllPending(NodeSteps(nodes, direct))
    ensures forall id: int64 ::
              Label(NodeStep, id) in Labels(NodeSteps(nodes, direct)) <==> PlannedNode(id, direct) in nodes
  {
    if nodes != [] {
      var rest := nodes[..|nodes| - 1];
      assert nodes == rest + [nodes[|nodes| - 1]];
      NodeStepsKinds(rest, direct);
      assert Labels(NodeSteps(nodes, direct)) == Labels(NodeSteps(rest, direct)) +
        (if nodes[|nodes| - 1].direct == direct then [Label(NodeStep, nodes[|nodes| - 1].id)] else []);
    }
  }

  lemma {:induction false} NodeStepsOf(nodes: seq<PlannedNode>, direct: bool)
    ensures forall n | n in nodes && n.direct == direct ::
              Step(NodeStep, n.id, Pending, 0, false) in NodeSteps(nodes, direct)
    ensures forall i :: 0 <= i < |NodeSteps(nodes, direct)| ==>
              NodeSteps(nodes, direct)[i] == Step(NodeStep, NodeSteps(nodes, direct)[i].id, Pending, 0, false) &&
              PlannedNode(NodeSteps(nodes, direct)[i].id, direct) in nodes
  {
    if nodes != [] {
      NodeStepsOf(nodes[..|nodes| - 1], direct);
      assert nodes == nodes[..|nodes| - 1] + [nodes[|nodes| - 1]];
    }
  }

  lemma NodeStepsAre(nodes: seq<PlannedNode>)
    ensures HasNodeSteps(NodeSteps(nodes, false) + NodeSteps(nodes, true), nodes)
  {
    NodeStepsOf(nodes, false);
    NodeStepsOf(nodes, true);
    var a, b := NodeSteps(nodes, false), NodeSteps(nodes, true);
    assert (a + b)[..|a|] == a && (a + b)[|a|..] == b;
    assert AreNodeSteps(a + b, nodes, |a|);
  }

  lemma FourParts(a: seq<Step>, b: seq<Step>, c: seq<Step>, d: seq<Step>)
    ensures var all := a + b + c + d;
            all[..|a|] == a && all[|a|..|a| + |b|] == b && all[|a| + |b|..|all| - |d|] == c && all[|all| - |d|..] == d
  {
  }

  lemma PlanStepsAre(packages: seq<int64>, middle: seq<Step>, nodes: seq<PlannedNode>, server: int64)
    ensures AreSteps(PlanSteps(packages, middle, nodes, server), packages, middle, nodes, server)
  {
    var dependants, own := NodeSteps(nodes, false), NodeSteps(nodes, true);
    var steps := PlanSteps(packages, middle, nodes, server);
    assert steps == PackageSteps(packages) + middle + (dependants + own) + ClosingSteps(server);
    FourParts(PackageSteps(packages), middle, dependants + own, ClosingSteps(server));
    NodeStepsAre(nodes);
    forall i | 0 <= i < |packages|
      ensures steps[i] == Step(Package, packages[i], Pending, 0, false)
    {
      assert steps[i] == steps[..|packages|][i];
    }
  }

  // ---------- execution ----------

  /** What performing one step came to. */
  datatype Outcome = Done | Error | Waiting

  /** The first step that is not completed. */
  function FirstOpen(steps: seq<Step>): nat {
    if steps == [] || steps[0].status != Completed then 0 else 1 + FirstOpen(steps[1..])
  }

  lemma {:induction false} FirstOpenIs(steps: seq<Step>)
    ensures FirstOpen(steps) <= |steps|
    ensures forall j | 0 <= j < FirstOpen(steps) :: steps[j].status == Completed
    ensures FirstOpen(steps) < |steps| ==> steps[FirstOpen(steps)].status != Completed
  {
    if steps != [] && steps[0].status == Completed {
      FirstOpenIs(steps[1..]);
      forall j | 0 <= j < FirstOpen(steps)
        ensures steps[j].status == Completed
      {
        if j > 0 {
          assert steps[j] == steps[1..][j - 1];
        }
      }
    }
  }

  ghost predicate IsCompletedPrefix(steps: seq<Step>, n: nat) {
    && n <= |steps|
    && (forall j | 0 <= j < |steps| :: steps[j].status == Completed <==> j < n)
  }

  lemma CompletedPrefixIsFirstOpen(steps: seq<Step>, n: nat)
    requires IsCompletedPrefix(steps, n)
    ensures FirstOpen(steps) == n
  {
    FirstOpenIs(steps);
    if n < |steps| {
      assert steps[n].status != Completed;
    }
  }

  /** The completed steps are a prefix, and the plan is finished exactly when it is all. */
  ghost predicate InProgress(plan: Plan) {
    && Ordered(Labels(plan.steps))
    && IsCompletedPrefix(plan.steps, FirstOpen(plan.steps))
    && (plan.state == Deleted <==> FirstOpen(plan.steps) == |plan.steps|)
  }

  /** One request.  A finished plan stays as it is; a step that waits changes no step; any
      other outcome is recorded on the first open step. */
  function Take(plan: Plan, outcome: Outcome): Plan {
    var i := FirstOpen(plan.steps);
    if plan.state == Deleted then plan
    else if i >= |plan.steps| || outcome == Waiting then plan.(state := Deleting)
    else
      var step := plan.steps[i].(attempts := plan.steps[i].attempts + 1);
      if outcome == Error then
        Plan(plan.steps[i := step.(status := Failed)], DeletePartial)
      else
        Plan(plan.steps[i := step.(status := Completed, hasPayload := false)],
             if step.kind == Verify then Deleted else Deleting)
  }

  /** Completed steps stay a prefix, and a request moves its end by one exactly when the
      step was done. */
  lemma TakeMovesThePrefix(plan: Plan, outcome: Outcome)
    requires InProgress(plan)
    ensures InProgress(Take(plan, outcome))
    ensures Labels(Take(plan, outcome).steps) == Labels(plan.steps)
    ensures FirstOpen(Take(plan, outcome).steps) ==
      FirstOpen(plan.steps) + if plan.state != Deleted && outcome == Done then 1 else 0
    ensures forall j | 0 <= j < |plan.steps| && j != FirstOpen(plan.steps) ::
              Take(plan, outcome).steps[j] == plan.steps[j]
  {
    var i := FirstOpen(plan.steps);
    if plan.state != Deleted && outcome != Waiting {
      var after := Take(plan, outcome);
      assert Labels(after.steps) == Labels(plan.steps);
      var n := if outcome == Done then i + 1 else i;
      assert IsCompletedPrefix(after.steps, n);
      CompletedPrefixIsFirstOpen(after.steps, n);
      assert Labels(plan.steps)[i].kind == Verify <==> i == |plan.steps| - 1;
    }
  }

  method FindOpen(steps: seq<Step>) returns (i: nat)
    ensures i == FirstOpen(steps)
  {
    i := 0;
    while i < |steps| && steps[i].status == Completed
      invariant i <= |steps| && FirstOpen(steps) == i + FirstOpen(steps[i..])
    {
      assert steps[i..][1..] == steps[i + 1..];
      i := i + 1;
    }
  }

  /** Records what performing step `i` came to. */
  method Record(plan: Plan, i: nat, outcome: Outcome) returns (recorded: Plan)
    requires i == FirstOpen(plan.steps) < |plan.steps| && plan.state != Deleted
    ensures recorded == Take(plan, outcome)
    ensures |recorded.steps| == |plan.steps| && forall j :: 0 <= j < |plan.steps| ==>
              recorded.steps[j] ==
              if j != i || outcome == Waiting then plan.steps[j]
              else if outcome == Error then plan.steps[i].(status := Failed, attempts := plan.steps[i].attempts + 1)
              else Step(plan.steps[i].kind, plan.steps[i].id, Completed, plan.steps[i].attempts + 1, false)
    ensures recorded.state == if outcome == Error then DeletePartial
                              else if outcome == Done && plan.steps[i].kind == Verify then Deleted else Deleting
  {
    recorded := plan.(state := Deleting);
    if outcome != Waiting {
      var step := plan.steps[i];
      step := step.(attempts := step.attempts + 1);
      if outcome == Error {
        step := step.(status := Failed);
        recorded := recorded.(state := DeletePartial);
      } else {
        step := step.(status := Completed, hasPayload := false);
      }
      recorded := recorded.(steps := recorded.steps[i := step]);
      if step.kind == Verify && outcome == Done {
        recorded := recorded.(state := Deleted);
      }
    }
  }

  function TakeAll(plan: Plan, outcomes: seq<Outcome>): Plan {
    if outcomes == [] then plan
    else Take(TakeAll(plan, outcomes[..|outcomes| - 1]), outcomes[|outcomes| - 1])
  }

  function CountDone(outcomes: seq<Outcome>): nat {
    if outcomes == [] then 0
    else CountDone(outcomes[..|outcomes| - 1]) + if outcomes[|outcomes| - 1] == Done then 1 else 0
  }

  /** Whatever failures and waits come between: a plan is deleted exactly when as many
      requests succeeded as it had open steps. */
  lemma {:induction false} DeletedAfterEnoughSuccesses(plan: Plan, outcomes: seq<Outcome>)
    requires InProgress(plan)
    ensures InProgress(TakeAll(plan, outcomes)) && |TakeAll(plan, outcomes).steps| == |plan.steps|
    ensures FirstOpen(TakeAll(plan, outcomes).steps) ==
      if FirstOpen(plan.steps) + CountDone(outcomes) < |plan.steps| then FirstOpen(plan.steps) + CountDone(outcomes)
      else |plan.steps|
    ensures TakeAll(plan, outcomes).state == Deleted <==> FirstOpen(plan.steps) + CountDone(outcomes) >= |plan.steps|
  {
    if outcomes != [] {
      DeletedAfterEnoughSuccesses(plan, outcomes[..|outcomes| - 1]);
      TakeMovesThePrefix(TakeAll(plan, outcomes[..|outcomes| - 1]), outcomes[|outcomes| - 1]);
    }
  }

  /** When a step is attempted, every step of a lower rank is completed: nodes come after
      packages, and the server after packages, configuration and nodes. */
  lemma AttemptsFollowTheOrder(plan: Plan, j: nat)
    requires InProgress(plan) && plan.state != Deleted && j < |plan.steps|
    requires Rank(plan.steps[j].kind) < Rank(plan.steps[FirstOpen(plan.steps)].kind)
    ensures plan.steps[j].status == Completed
  {
    var labels := Labels(plan.steps);
    assert Rank(labels[j].kind) < Rank(labels[FirstOpen(plan.steps)].kind);
  }

  /** The same told by the kinds: packages come before everything else, what edits configuration
      before nodes, then the helper, the server, the sweep and the verification. */
  lemma DependenciesComeFirst(plan: Plan, j: nat)
    requires InProgress(plan) && plan.state != Deleted && j < |plan.steps|
    requires var before, open := plan.steps[j].kind, plan.steps[FirstOpen(plan.steps)].kind;
      before != open && match open
      case Package => false
      case NodeStep => before !in {Helper, ServerStep, Sweep, Verify}
      case Helper => before !in {ServerStep, Sweep, Verify}
      case ServerStep => before !in {Sweep, Verify}
      case Sweep => before != Verify
      case Verify => true
      case _ => before == Package
    ensures plan.steps[j].status == Completed
  {
    AttemptsFollowTheOrder(plan, j);
  }

  /** A plan that says deleted has completed every one of its steps, and conversely. */
  lemma DeletedMeansEverythingIsDone(plan: Plan)
    requires InProgress(plan)
    ensures plan.state == Deleted <==> forall i | 0 <= i < |plan.steps| :: plan.steps[i].status == Completed
  {
    if plan.state != Deleted {
      assert plan.steps[FirstOpen(plan.steps)].status != Completed;
    }
  }

  /** The plan in memory and the plan in the database. */
  class Deletion {
    var plan: Plan
    var saved: Plan
    /** The plan as it was each time one of its steps was attempted. */
    ghost var attempts: seq<Plan>

    /** What holds over every run of requests, failed saves and reloads: both plans have a
        prefix of completed steps, memory is never behind the database, and every attempt
        was made on the first open step of such a plan. */
    ghost predicate Valid()
      reads this
    {
      && InProgress(plan) && InProgress(saved)
      && Labels(plan.steps) == Labels(saved.steps)
      && FirstOpen(saved.steps) <= FirstOpen(plan.steps)
      && (forall p :: p in attempts ==> InProgress(p) && p.state != Deleted)
    }

    /** A confirmed plan is saved before its first step. */
    constructor (steps: seq<Step>)
      requires Ordered(Labels(steps)) && AllPending(steps)
      ensures Valid() && attempts == []
      ensures plan == Plan(steps, Deleting) && saved == plan
    {
      plan := Plan(steps, Deleting);
      saved := Plan(steps, Deleting);
      attempts := [];
    }

    /** A request that continues the operation starts from the database. */
    method Reload()
      requires Valid()
      modifies this`plan
      ensures Valid() && plan == saved
    {
      plan := saved;
    }

    /** One request: at most one step is attempted, and its outcome is saved or lost. */
    method Execute(outcome: Outcome, saveOk: bool) returns (ok: bool)
      requires Valid()
      modifies this
      ensures Valid()
      ensures plan == Take(old(plan), outcome)
      ensures if old(plan).state == Deleted
        then ok && saved == old(saved) && attempts == old(attempts)
        else ok == saveOk && saved == (if saveOk then plan else old(saved)) && attempts == old(attempts) + [old(plan)]
      ensures FirstOpen(saved.steps) >= FirstOpen(old(saved).steps)
    {
      TakeMovesThePrefix(plan, outcome);
      if plan.state == Deleted {
        return true;
      }
      attempts := attempts + [plan];
      var i := FindOpen(plan.steps);
      plan := Record(plan, i, outcome);
      ok := Save(saveOk);
    }

    method Save(saveOk: bool) returns (ok: bool)
      modifies this`saved
      ensures ok == saveOk && saved == if saveOk then plan else old(saved)
    {
      if saveOk {
        saved := plan;
      }
      return saveOk;
    }
  }
}
