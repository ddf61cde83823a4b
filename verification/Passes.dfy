/** Theorems about one reconcile pass: what a created Job waited for, that a pass never leaves a
    workflow stuck, how many nodes run in parallel, and what a failure ends. */
module Passes {
  import opened StringOrder
  import opened DependencyGraph
  import opened WorkflowSpec
  import opened Workflow
  import opened RunInvariant

  // ---- Precedence ---------------------------------------------------------------------------

  lemma DependencyIsNode(spec: Spec, nodes: seq<NodeState>, a: string, b: string) returns (j: nat)
    requires Accepted(spec) && JobNames(spec.jobs) <= NodeNames(nodes) && Edge(Deps(spec), a, b)
    ensures j < |nodes| && nodes[j].name == b
  {
    DepsClosed(spec);
    j := Position(nodes, b);
  }

  /** Along a walk down the dependencies of a runnable node everything succeeded. */
  lemma {:induction false} WalkSucceeded(run: Run, nodes: seq<NodeState>, jobs: Jobs, i: nat, w: seq<string>, k: nat)
    returns (j: nat)
    requires RunInv(run, nodes, jobs) && Cleared(run.spec, nodes) && !run.spec.failurePolicy.BestEffort?
    requires i < |nodes| && CanRun(run.spec.failurePolicy, nodes, Deps(run.spec), nodes[i])
    requires Walk(Deps(run.spec), w) && 1 <= k < |w| && w[0] == nodes[i].name
    ensures j < |nodes| && nodes[j].name == w[k] && nodes[j].phase.Succeeded?
    decreases k
  {
    var g := Deps(run.spec);
    assert Edge(g, w[k - 1], w[k]);
    j := DependencyIsNode(run.spec, nodes, w[k - 1], w[k]);
    if k == 1 {
      RunnableDependencies(run, nodes, jobs, i, j);
    } else {
      var h := WalkSucceeded(run, nodes, jobs, i, w, k - 1);
      assert NodeInv(run, nodes[h], jobs);
      assert nodes[j].phase.Succeeded? || nodes[j].phase.Failed?;
      assert WalkBetween(g, w[..k + 1], nodes[i].name, nodes[j].name);
      assert nodes[j].phase.Failed? ==> Blames(run.spec, nodes[i], nodes[j]);
    }
  }

  /** The Job of `a` is in the cluster and complete. */
  ghost predicate CompleteInCluster(run: Run, jobs: Jobs, a: string) {
    run.nameOf(a) in jobs && jobs[run.nameOf(a)].complete
  }

  /** Node `j` is the stored node of `d` and was given its Job. */
  ghost predicate GivenJob(run: Run, nodes: seq<NodeState>, d: string, j: int) {
    0 <= j < |nodes| && nodes[j].name == d && nodes[j].jobName == run.nameOf(d) && nodes[j].jobName != ""
  }

  /** The stored node of `d` was given its Job, and that Job is found to have ended: complete,
      failed, or deleted since. */
  ghost predicate FoundEnded(run: Run, nodes: seq<NodeState>, jobs: Jobs, d: string) {
    exists j :: GivenJob(run, nodes, d, j)
                && (Settled(run, nodes, jobs)[j].phase.Succeeded? || Settled(run, nodes, jobs)[j].phase.Failed?)
  }

  ghost predicate FoundSucceeded(run: Run, nodes: seq<NodeState>, jobs: Jobs, d: string) {
    exists j :: GivenJob(run, nodes, d, j) && Settled(run, nodes, jobs)[j].phase.Succeeded?
  }

  /** What must hold of the stored nodes and the cluster before the Job of `n` may exist: all its
      transitive dependencies succeeded, with a complete Job in the cluster; under BestEffort all
      its direct dependencies had a Job that ended. */
  ghost predicate MayStart(run: Run, nodes: seq<NodeState>, jobs: Jobs, n: string) {
    if run.spec.failurePolicy.BestEffort?
    then forall d | Edge(Deps(run.spec), n, d) :: FoundEnded(run, nodes, jobs, d)
    else forall a | Reaches(Deps(run.spec), n, a) ::
           FoundSucceeded(run, nodes, jobs, a) && CompleteInCluster(run, jobs, a)
  }

  lemma SettledInCluster(run: Run, nodes: seq<NodeState>, jobs: Jobs, j: nat)
    requires RunInv(run, nodes, jobs) && j < |nodes|
    ensures var p := Settled(run, nodes, jobs)[j].phase;
            && (p.Succeeded? ==> CompleteInCluster(run, jobs, nodes[j].name))
            && (p.Succeeded? || p.Failed? ==> GivenJob(run, nodes, nodes[j].name, j))
  {
    assert NodeInv(run, nodes[j], jobs);
    ObservedKeepsNode(run, nodes[j], jobs);
  }

  /** A runnable node may start, although the runnable condition by itself lets skipped
      dependencies pass. */
  lemma RunnableMayStart(run: Run, nodes: seq<NodeState>, jobs: Jobs, n: string)
    requires RunInv(run, nodes, jobs)
    requires n in Runnable(run.spec.failurePolicy, Settled(run, nodes, jobs), Deps(run.spec))
    ensures MayStart(run, nodes, jobs, n)
  {
    var g, settled := Deps(run.spec), Settled(run, nodes, jobs);
    PolicyKeeps(run, nodes, jobs);
    var i := RunnableName(run.spec.failurePolicy, settled, g, n);
    if run.spec.failurePolicy.BestEffort? {
      forall d | Edge(g, n, d) ensures FoundEnded(run, nodes, jobs, d) {
        var j := DependencyIsNode(run.spec, settled, n, d);
        RunnableDependencies(run, settled, jobs, i, j);
        SettledInCluster(run, nodes, jobs, j);
      }
    } else {
      forall a | Reaches(g, n, a) ensures FoundSucceeded(run, nodes, jobs, a) && CompleteInCluster(run, jobs, a) {
        var w :| WalkBetween(g, w, n, a);
        var j := WalkSucceeded(run, settled, jobs, i, w, |w| - 1);
        SettledInCluster(run, nodes, jobs, j);
      }
    }
  }

  /** The new Jobs of a pass are the new Jobs of nodes that may start. */
  lemma NewJobMayStart(run: Run, nodes: seq<NodeState>, jobs: Jobs, faults: Faults, key: string) returns (n: string)
    requires RunInv(run, nodes, jobs)
    requires key in RunPass(run, nodes, jobs, faults).jobs && key !in jobs
    ensures n in JobNames(run.spec.jobs) && key == run.nameOf(n)
    ensures RunPass(run, nodes, jobs, faults).jobs[key] == run.newJob(n)
    ensures n in Runnable(run.spec.failurePolicy, Settled(run, nodes, jobs), Deps(run.spec))
    ensures MayStart(run, nodes, jobs, n)
  {
    EnsuredNothing(run.spec.jobs, nodes);
    var settled := Settled(run, nodes, jobs);
    var out := Attempt(run, settled, jobs, Order(run, settled), Slots(run, nodes, jobs), faults);
    assert RunPass(run, nodes, jobs, faults) == out;
    assert MadeFor(run, out.created, key, out.jobs[key]);
    n :| n in out.created && key == run.nameOf(n) && out.jobs[key] == run.newJob(n);
    PrefixElements(out.created, Order(run, settled));
    assert n in Elements(out.created);
    RunnableMayStart(run, nodes, jobs, n);
    var i := RunnableName(run.spec.failurePolicy, settled, Deps(run.spec), n);
    assert nodes[i].name in NodeNames(nodes);
  }

  // ---- No deadlock --------------------------------------------------------------------------

  /** How a pass that read every Job moves on from the settled nodes: it starts a prefix of the
      runnable nodes in order, as many as there are slots unless it stops early. */
  ghost predicate Schedules(order: seq<string>, slots: int, settled: seq<NodeState>, out: PassOut) {
    && |out.nodes| == |settled|
    && |out.started| <= (if slots > 0 then slots else 0)
    && out.started <= order
    && (forall i | 0 <= i < |settled| && settled[i].name !in out.started :: out.nodes[i] == settled[i])
    && (forall i | 0 <= i < |settled| && settled[i].name in out.started ::
          settled[i].phase.Pending? && out.nodes[i].phase.Running?)
    && (!out.err && slots > 0 ==> |out.started| == slots || out.started == order)
  }

  lemma PassSchedules(run: Run, nodes: seq<NodeState>, jobs: Jobs, faults: Faults)
    requires UniqueNames(nodes) && FaultFrom(nodes, faults, 0) == |nodes|
    ensures var settled := Settled(run, nodes, jobs);
            && UniqueNames(settled)
            && Schedules(Order(run, settled), Slots(run, nodes, jobs), settled, NodePass(run, nodes, jobs, faults))
  {
    var settled := Settled(run, nodes, jobs);
    assert UniqueNames(settled);
    if Slots(run, nodes, jobs) > 0 {
      var out := Attempt(run, settled, jobs, Order(run, settled), Slots(run, nodes, jobs), faults);
      assert NodePass(run, nodes, jobs, faults) == out;
      PrefixElements(out.started, out.created);
      PrefixElements(out.created, Order(run, settled));
      StartedPending(run, settled, Elements(out.started));
      forall i | 0 <= i < |nodes|
        ensures settled[i].name !in out.started ==> out.nodes[i] == settled[i]
        ensures settled[i].name in out.started ==> settled[i].phase.Pending? && out.nodes[i].phase.Running?
      {
        assert settled[i].name in out.started <==> settled[i].name in Elements(out.started);
      }
    }
  }

  /** A pending node none of whose dependencies is pending, failed, running or unknown can run. */
  lemma FreeNode(spec: Spec, settled: seq<NodeState>) returns (i: nat)
    requires Accepted(spec) && UniqueNames(settled) && Any(settled, Pending)
    requires !Any(settled, Failed) && !Any(settled, Running) && !Any(settled, Unset)
    ensures i < |settled| && CanRun(spec.failurePolicy, settled, Deps(spec), settled[i])
  {
    var waiting := set k | 0 <= k < |settled| && settled[k].phase.Pending? :: settled[k].name;
    var p :| 0 <= p < |settled| && settled[p].phase == Pending;
    assert settled[p].name in waiting;
    var m := MinimalMember(Deps(spec), waiting);
    i :| 0 <= i < |settled| && settled[i].phase.Pending? && settled[i].name == m;
    forall j | 0 <= j < |settled| && Edge(Deps(spec), m, settled[j].name)
      ensures Releases(spec.failurePolicy, settled[j].phase)
    {
      assert settled[j].name !in waiting;
      assert settled[j].phase != Failed && settled[j].phase != Running && settled[j].phase != Unset;
    }
  }

  /** No running node: no slot is taken. */
  lemma NothingActive(run: Run, nodes: seq<NodeState>, jobs: Jobs)
    requires !Any(Settled(run, nodes, jobs), Running)
    ensures ActiveUpTo(nodes, jobs, |nodes|) == {}
    ensures Slots(run, nodes, jobs) >= 1
  {
    var settled := Settled(run, nodes, jobs);
    forall i | 0 <= i < |nodes| ensures !TakesSlot(nodes[i], jobs) {
      assert settled[i].phase != Running;
    }
  }

  /** When nothing failed, runs or is unknown and something waits, something is started. */
  lemma WaitingStarts(run: Run, nodes: seq<NodeState>, jobs: Jobs, faults: Faults)
    requires Accepted(run.spec) && UniqueNames(nodes) && !NodePass(run, nodes, jobs, faults).err
    requires var settled := Settled(run, nodes, jobs);
             Any(settled, Pending) && !Any(settled, Failed) && !Any(settled, Running) && !Any(settled, Unset)
    ensures NodePass(run, nodes, jobs, faults).started != []
  {
    var settled := Settled(run, nodes, jobs);
    PassSchedules(run, nodes, jobs, faults);
    NothingActive(run, nodes, jobs);
    var i := FreeNode(run.spec, settled);
    assert settled[i].name in Elements(Order(run, settled));
  }

  /** What is started runs afterwards. */
  lemma StartedRuns(run: Run, nodes: seq<NodeState>, jobs: Jobs, faults: Faults)
    requires UniqueNames(nodes) && FaultFrom(nodes, faults, 0) == |nodes|
    requires NodePass(run, nodes, jobs, faults).started != []
    ensures Any(NodePass(run, nodes, jobs, faults).nodes, Running)
  {
    var out, settled := NodePass(run, nodes, jobs, faults), Settled(run, nodes, jobs);
    PassSchedules(run, nodes, jobs, faults);
    PrefixElements(out.started, Order(run, settled));
    assert out.started[0] in Elements(out.started);
    var k := RunnableName(run.spec.failurePolicy, settled, Deps(run.spec), out.started[0]);
    assert out.nodes[k].phase == Running;
  }

  lemma PassNeverStalls(run: Run, nodes: seq<NodeState>, jobs: Jobs, faults: Faults)
    requires Accepted(run.spec) && UniqueNames(nodes)
    requires !NodePass(run, nodes, jobs, faults).err
    ensures var after := NodePass(run, nodes, jobs, faults).nodes;
            Any(after, Pending) ==> Any(after, Failed) || Any(after, Running) || Any(after, Unset)
  {
    var out := NodePass(run, nodes, jobs, faults);
    if out.started != [] {
      StartedRuns(run, nodes, jobs, faults);
    } else {
      PassSchedules(run, nodes, jobs, faults);
      assert out.nodes == Settled(run, nodes, jobs);
      if Any(out.nodes, Pending) && !Any(out.nodes, Failed) && !Any(out.nodes, Running) && !Any(out.nodes, Unset) {
        WaitingStarts(run, nodes, jobs, faults);
      }
    }
  }

  /** For every accepted graph and every stored node list, a pass that returns no error leaves the
      workflow Pending only if some node has a phase the code does not know: if nothing failed or
      runs, acyclicity gives a runnable node and a slot is free. */
  lemma NoDeadlock(run: Run, stored: seq<NodeState>, jobs: Jobs, faults: Faults)
    requires Accepted(run.spec) && UniqueNames(stored)
    requires !RunPass(run, stored, jobs, faults).err
    ensures var after := RunPass(run, stored, jobs, faults).nodes;
            Derived(after).Pending? <==> !Any(after, Failed) && !Any(after, Running) && Any(after, Unset)
  {
    EnsuredCovers(run.spec.jobs, stored);
    PassNeverStalls(run, Ensured(run.spec.jobs, stored), jobs, faults);
  }

  // ---- Parallelism --------------------------------------------------------------------------

  ghost function RunningSet(nodes: seq<NodeState>): set<int> {
    set i | 0 <= i < |nodes| && nodes[i].phase.Running?
  }

  /** Running nodes that take no slot: their unfinished Job reports no active pod. */
  ghost function IdleSet(nodes: seq<NodeState>, jobs: Jobs): set<int> {
    set i | 0 <= i < |nodes| && RunsIdle(nodes[i], jobs)
  }

  predicate RunsIdle(n: NodeState, jobs: Jobs) {
    n.phase.Running? && (n.jobName == "" || (n.jobName in jobs && IsIdle(jobs[n.jobName])))
  }

  /** As many positions as names at most, when names do not repeat. */
  lemma {:induction false} PositionsOf(nodes: seq<NodeState>, names: set<string>)
    requires UniqueNames(nodes)
    ensures |set i | 0 <= i < |nodes| && nodes[i].name in names| <= |names|
    decreases names
  {
    var at := set i | 0 <= i < |nodes| && nodes[i].name in names;
    if names == {} {
      assert at == {};
    } else {
      var x :| x in names;
      var rest := set i | 0 <= i < |nodes| && nodes[i].name in names - {x};
      PositionsOf(nodes, names - {x});
      if x in NodeNames(nodes) {
        var k := Position(nodes, x);
        assert at == rest + {k as int};
      } else {
        assert forall i | 0 <= i < |nodes| :: nodes[i].name in NodeNames(nodes);
        assert at == rest;
      }
    }
  }

  lemma SettledRunning(run: Run, nodes: seq<NodeState>, jobs: Jobs, i: nat)
    requires i < |nodes|
    ensures Settled(run, nodes, jobs)[i].phase.Running? <==> TakesSlot(nodes[i], jobs) || RunsIdle(nodes[i], jobs)
  {
    SettledShape(run, nodes, jobs);
    assert ObservedUpTo(nodes, jobs, |nodes|)[i] == Observed(nodes[i], jobs);
  }

  /** The positions of the nodes a pass starts. */
  ghost function StartedAt(nodes: seq<NodeState>, started: seq<string>): set<int> {
    set i | 0 <= i < |nodes| && nodes[i].name in Elements(started)
  }

  lemma StartedAtCount(nodes: seq<NodeState>, order: seq<string>, started: seq<string>)
    requires UniqueNames(nodes) && StrictlySorted(order) && started <= order && Elements(order) <= NodeNames(nodes)
    ensures |StartedAt(nodes, started)| == |started|
  {
    PrefixIsSmallest(order, started);
    PositionsOf(nodes, Elements(started));
    forall x | x in Elements(started) ensures exists i :: i in StartedAt(nodes, started) && nodes[i].name == x {
      var i := Position(nodes, x);
      assert i in StartedAt(nodes, started);
    }
    ImageBound(nodes, StartedAt(nodes, started), Elements(started));
  }

  /** A node runs afterwards exactly if it takes a slot, was running idle, or is one of `names`,
      which were neither. */
  ghost predicate RunsExactly(nodes: seq<NodeState>, jobs: Jobs, names: set<string>, after: seq<NodeState>) {
    |after| == |nodes| && forall i | 0 <= i < |nodes| ::
      if nodes[i].name in names then after[i].phase.Running? && !TakesSlot(nodes[i], jobs) && !RunsIdle(nodes[i], jobs)
      else after[i].phase.Running? <==> TakesSlot(nodes[i], jobs) || RunsIdle(nodes[i], jobs)
  }

  lemma PassRunsExactly(run: Run, nodes: seq<NodeState>, jobs: Jobs, faults: Faults)
    requires UniqueNames(nodes) && FaultFrom(nodes, faults, 0) == |nodes|
    ensures var out := NodePass(run, nodes, jobs, faults);
            RunsExactly(nodes, jobs, Elements(out.started), out.nodes)
  {
    PassSchedules(run, nodes, jobs, faults);
    forall i | 0 <= i < |nodes|
      ensures Settled(run, nodes, jobs)[i].phase.Running? <==> TakesSlot(nodes[i], jobs) || RunsIdle(nodes[i], jobs)
    {
      SettledRunning(run, nodes, jobs, i);
    }
  }

  lemma RunningSum(nodes: seq<NodeState>, jobs: Jobs, started: seq<string>, after: seq<NodeState>)
    requires RunsExactly(nodes, jobs, Elements(started), after)
    ensures |RunningSet(after)|
            == |ActiveUpTo(nodes, jobs, |nodes|)| + |IdleSet(nodes, jobs)| + |StartedAt(nodes, started)|
  {
    var active, idle, begun := ActiveUpTo(nodes, jobs, |nodes|), IdleSet(nodes, jobs), StartedAt(nodes, started);
    RunningUnion(nodes, jobs, started, after);
    assert |active + idle| == |active| + |idle|;
  }

  lemma RunningUnion(nodes: seq<NodeState>, jobs: Jobs, started: seq<string>, after: seq<NodeState>)
    requires RunsExactly(nodes, jobs, Elements(started), after)
    ensures var active, idle := ActiveUpTo(nodes, jobs, |nodes|), IdleSet(nodes, jobs);
            var begun := StartedAt(nodes, started);
            RunningSet(after) == active + idle + begun && active !! idle && (active + idle) !! begun
  {
  }

  /** The exact number of running nodes after a pass that read every Job. */
  lemma RunningCount(run: Run, nodes: seq<NodeState>, jobs: Jobs, faults: Faults)
    requires UniqueNames(nodes) && FaultFrom(nodes, faults, 0) == |nodes|
    ensures var out := NodePass(run, nodes, jobs, faults);
            |RunningSet(out.nodes)| == |ActiveUpTo(nodes, jobs, |nodes|)| + |IdleSet(nodes, jobs)| + |out.started|
  {
    var out := NodePass(run, nodes, jobs, faults);
    PassRunsExactly(run, nodes, jobs, faults);
    RunningSum(nodes, jobs, out.started, out.nodes);
    PassSchedules(run, nodes, jobs, faults);
    RunnableNames(run, nodes, jobs);
    StartedAtCount(nodes, Order(run, Settled(run, nodes, jobs)), out.started);
  }

  lemma RunnableNames(run: Run, nodes: seq<NodeState>, jobs: Jobs)
    ensures Elements(Order(run, Settled(run, nodes, jobs))) <= NodeNames(nodes)
  {
    var settled := Settled(run, nodes, jobs);
    forall x | x in Runnable(run.spec.failurePolicy, settled, Deps(run.spec)) ensures x in NodeNames(nodes) {
      var i := RunnableName(run.spec.failurePolicy, settled, Deps(run.spec), x);
      assert nodes[i].name == x;
    }
  }

  /** After a pass that read every Job the running nodes fit the limit, except for nodes that were
      running before and take no slot; a lowered limit does not stop what is active. */
  lemma ParallelismBound(run: Run, nodes: seq<NodeState>, jobs: Jobs, faults: Faults)
    requires UniqueNames(nodes) && FaultFrom(nodes, faults, 0) == |nodes|
    ensures var active := |ActiveUpTo(nodes, jobs, |nodes|)|;
            var limit := if Parallelism(run.spec) >= active then Parallelism(run.spec) else active;
            |RunningSet(NodePass(run, nodes, jobs, faults).nodes)| <= limit + |IdleSet(nodes, jobs)|
  {
    RunningCount(run, nodes, jobs, faults);
    PassSchedules(run, nodes, jobs, faults);
  }

  /** No node runs idle, or the idle ones and all that can run fit the free slots together. */
  ghost predicate HasRoom(run: Run, nodes: seq<NodeState>, jobs: Jobs) {
    || IdleSet(nodes, jobs) == {}
    || |IdleSet(nodes, jobs)| + |Runnable(run.spec.failurePolicy, Settled(run, nodes, jobs), Deps(run.spec))|
       <= Slots(run, nodes, jobs)
  }

  /** Exactly when a pass keeps to the limit. A Job reports no active pod right after its creation
      and is then not counted, so the limit is not what the documentation says it is. */
  lemma LimitKeptIff(run: Run, nodes: seq<NodeState>, jobs: Jobs, faults: Faults)
    requires UniqueNames(nodes) && !NodePass(run, nodes, jobs, faults).err
    ensures |RunningSet(NodePass(run, nodes, jobs, faults).nodes)| <= Parallelism(run.spec)
            <==> |ActiveUpTo(nodes, jobs, |nodes|)| <= Parallelism(run.spec) && HasRoom(run, nodes, jobs)
  {
    RunningCount(run, nodes, jobs, faults);
    SmallestFirst(run, nodes, jobs, faults);
    PassSchedules(run, nodes, jobs, faults);
    PrefixIsSmallest(Order(run, Settled(run, nodes, jobs)), NodePass(run, nodes, jobs, faults).started);
  }

  /** With room the limit is kept also by a pass that stops while it schedules. */
  lemma RoomSuffices(run: Run, nodes: seq<NodeState>, jobs: Jobs, faults: Faults)
    requires UniqueNames(nodes) && FaultFrom(nodes, faults, 0) == |nodes|
    requires |ActiveUpTo(nodes, jobs, |nodes|)| <= Parallelism(run.spec) && HasRoom(run, nodes, jobs)
    ensures |RunningSet(NodePass(run, nodes, jobs, faults).nodes)| <= Parallelism(run.spec)
  {
    var order, started := Order(run, Settled(run, nodes, jobs)), NodePass(run, nodes, jobs, faults).started;
    RunningCount(run, nodes, jobs, faults);
    PassSchedules(run, nodes, jobs, faults);
    PrefixIsSmallest(order, started);
    SubsetCount(Elements(started), Elements(order));
  }

  lemma {:induction false} ElementsBound<T>(s: seq<T>)
    ensures |Elements(s)| <= |s|
  {
    if s == [] {
      NoElements(s);
    } else {
      ElementsBound(s[1..]);
      assert s == [s[0]] + s[1..];
      assert Elements(s) == Elements(s[1..]) + {s[0]};
    }
  }

  lemma PrefixIsSmallest(order: seq<string>, taken: seq<string>)
    requires StrictlySorted(order) && taken <= order
    ensures Elements(taken) <= Elements(order) && |Elements(taken)| == |taken|
    ensures forall a, b | a in Elements(taken) && b in Elements(order) - Elements(taken) :: Less(a, b)
  {
    PrefixElements(taken, order);
    StrictlySortedNoDuplicates(order);
    assert NoDuplicates(taken) by { assert forall i | 0 <= i < |taken| :: taken[i] == order[i]; }
    DistinctCount(taken);
    assert forall k | 0 <= k < |taken| :: order[k] in Elements(taken);
    forall a, b | a in Elements(taken) && b in Elements(order) - Elements(taken) ensures Less(a, b) {
      var i :| 0 <= i < |taken| && taken[i] == a;
      var j :| 0 <= j < |order| && order[j] == b;
      assert order[i] == a;
    }
  }

  /** A pass without error starts exactly the smallest names that fit the free slots. */
  lemma SmallestFirst(run: Run, nodes: seq<NodeState>, jobs: Jobs, faults: Faults)
    requires UniqueNames(nodes) && !NodePass(run, nodes, jobs, faults).err
    ensures var out, slots := NodePass(run, nodes, jobs, faults), Slots(run, nodes, jobs);
            var runnable := Runnable(run.spec.failurePolicy, Settled(run, nodes, jobs), Deps(run.spec));
            && Elements(out.started) <= runnable
            && |Elements(out.started)| == (if slots <= 0 then 0 else if slots < |runnable| then slots else |runnable|)
            && forall a, b | a in Elements(out.started) && b in runnable - Elements(out.started) :: Less(a, b)
  {
    PassSchedules(run, nodes, jobs, faults);
    PrefixIsSmallest(Order(run, Settled(run, nodes, jobs)), NodePass(run, nodes, jobs, faults).started);
  }

  // ---- What a failure ends ------------------------------------------------------------------

  ghost function PendingSet(nodes: seq<NodeState>): set<int> {
    set i | 0 <= i < |nodes| && nodes[i].phase.Pending?
  }

  /** Every pending node can run now and there is a slot for each. */
  ghost predicate AllFit(policy: FailurePolicy, settled: seq<NodeState>, deps: Graph, slots: int) {
    && (forall i | 0 <= i < |settled| && settled[i].phase.Pending? :: CanRun(policy, settled, deps, settled[i]))
    && (PendingSet(settled) != {} ==> |PendingSet(settled)| <= slots)
  }

  /** The documentation says that after a failure independent branches continue, or under
      BestEffort all branches. In the code a failed node ends the run with the pass that sees it,
      so a branch goes on exactly if that one pass can start all that is left of it. */
  lemma BranchesContinueIff(run: Run, nodes: seq<NodeState>, jobs: Jobs, faults: Faults)
    requires UniqueNames(nodes) && !NodePass(run, nodes, jobs, faults).err
    ensures !Any(NodePass(run, nodes, jobs, faults).nodes, Pending)
            <==> AllFit(run.spec.failurePolicy, Settled(run, nodes, jobs), Deps(run.spec), Slots(run, nodes, jobs))
  {
    PassSchedules(run, nodes, jobs, faults);
    NonePendingIff(run.spec.failurePolicy, Deps(run.spec), Slots(run, nodes, jobs), Settled(run, nodes, jobs),
                   NodePass(run, nodes, jobs, faults));
  }

  lemma NonePendingIff(policy: FailurePolicy, deps: Graph, slots: int, settled: seq<NodeState>, out: PassOut)
    requires UniqueNames(settled) && Schedules(InOrder(Runnable(policy, settled, deps)), slots, settled, out)
             && !out.err
    ensures !Any(out.nodes, Pending) <==> AllFit(policy, settled, deps, slots)
  {
    if AllFit(policy, settled, deps, slots) {
      forall i | 0 <= i < |settled| ensures out.nodes[i].phase != Pending {
        FittingIsStarted(policy, deps, slots, settled, out, i);
      }
    }
    if !Any(out.nodes, Pending) {
      StartedAllFit(policy, deps, slots, settled, out);
    }
  }

  lemma {:induction false} ImageBound(nodes: seq<NodeState>, at: set<int>, names: set<string>)
    requires forall i | i in at :: 0 <= i < |nodes|
    requires forall x | x in names :: exists i :: i in at && nodes[i].name == x
    ensures |names| <= |at|
    decreases names
  {
    if names != {} {
      var x :| x in names;
      var k :| k in at && nodes[k].name == x;
      forall y | y in names - {x} ensures exists i :: i in at - {k} && nodes[i].name == y {
        var i :| i in at && nodes[i].name == y;
        assert i in at - {k};
      }
      ImageBound(nodes, at - {k}, names - {x});
    }
  }

  lemma RunnableArePending(policy: FailurePolicy, nodes: seq<NodeState>, deps: Graph)
    ensures |Runnable(policy, nodes, deps)| <= |PendingSet(nodes)|
  {
    var names := Runnable(policy, nodes, deps);
    forall x | x in names ensures exists i :: i in PendingSet(nodes) && nodes[i].name == x {
      var i := RunnableName(policy, nodes, deps, x);
      assert i in PendingSet(nodes);
    }
    ImageBound(nodes, PendingSet(nodes), names);
  }

  lemma FittingIsStarted(policy: FailurePolicy, deps: Graph, slots: int, settled: seq<NodeState>, out: PassOut, i: nat)
    requires Schedules(InOrder(Runnable(policy, settled, deps)), slots, settled, out) && !out.err
    requires AllFit(policy, settled, deps, slots) && i < |settled|
    ensures !out.nodes[i].phase.Pending?
  {
    if settled[i].phase.Pending? {
      assert i in PendingSet(settled);
      SubsetCount({i as int}, PendingSet(settled));
      RunnableArePending(policy, settled, deps);
      var order := InOrder(Runnable(policy, settled, deps));
      assert out.started == order;
      assert settled[i].name in Elements(order);
    }
  }

  lemma StartedAllFit(policy: FailurePolicy, deps: Graph, slots: int, settled: seq<NodeState>, out: PassOut)
    requires UniqueNames(settled) && Schedules(InOrder(Runnable(policy, settled, deps)), slots, settled, out)
    requires !Any(out.nodes, Pending)
    ensures AllFit(policy, settled, deps, slots)
  {
    var order := InOrder(Runnable(policy, settled, deps));
    PrefixElements(out.started, order);
    forall i | 0 <= i < |settled| && settled[i].phase.Pending?
      ensures settled[i].name in Elements(out.started) && CanRun(policy, settled, deps, settled[i])
    {
      assert out.nodes[i].phase != Pending;
      assert settled[i].name in Elements(out.started);
      var k := RunnableName(policy, settled, deps, settled[i].name);
      assert k == i;
    }
    var begun := set i | 0 <= i < |settled| && settled[i].name in Elements(out.started);
    SubsetCount(PendingSet(settled), begun);
    PositionsOf(settled, Elements(out.started));
    ElementsBound(out.started);
    if k :| k in PendingSet(settled) { assert settled[k].name in out.started; }
  }
}
