/** The controller's workflow engine in its own form: objects whose fields are updated in place,
    loops, and calls to a cluster that can fail. Each method is proved to compute the function of
    `Workflow` that describes it, on every exit. */
module Engine {
  import opened StringOrder
  import opened DependencyGraph
  import opened JobSecurity
  import opened WorkflowSpec
  import opened Workflow
  import opened RunInvariant
  import Naming

  // ---- The cluster --------------------------------------------------------------------------

  datatype Read = Found(job: Job) | NotFound | ReadFailed

  datatype CreateFault = NoFault | Refused | Lost

  /** The Jobs of a namespace behind an API whose calls can fail. */
  class Cluster {
    var jobs: Jobs

    method Get(name: string, fails: bool) returns (r: Read)
      ensures r == if fails then ReadFailed else if name in jobs then Found(jobs[name]) else NotFound
    {
      if fails { return ReadFailed; }
      if name in jobs { return Found(jobs[name]); }
      return NotFound;
    }

    /** A Job is created only under a free name. A lost answer reports an error for a created Job. */
    method Create(name: string, job: Job, fault: CreateFault) returns (ok: bool)
      modifies this
      ensures ok <==> name !in old(jobs) && fault.NoFault?
      ensures jobs == if name in old(jobs) || fault.Refused? then old(jobs) else old(jobs)[name := job]
    {
      if name in jobs || fault.Refused? { return false; }
      jobs := jobs[name := job];
      return fault.NoFault?;
    }
  }

  // ---- The execution state ------------------------------------------------------------------

  /** One entry of `status.observedCertificates`. */
  class ExecutionState {
    const namespace: string
    const name: string
    var secretName: string
    var inputHash: string
    var runID: string
    var phase: Phase
    var nodes: seq<NodeState>

    ghost function View(): ExecState
      reads this
    {
      ExecState(namespace, name, secretName, inputHash, runID, phase, nodes)
    }

    constructor (namespace: string, name: string)
      ensures View() == ExecState(namespace, name, "", "", "", Pending, [])
    {
      this.namespace, this.name := namespace, name;
      secretName, inputHash, runID := "", "", "";
      phase, nodes := Pending, [];
    }
  }

  /** Edges lead to nodes: what makes every lookup of the engine succeed. */
  ghost predicate EdgesLeadToNodes(nodes: seq<NodeState>, g: Graph) {
    forall a, b | Edge(g, a, b) :: b in NodeNames(nodes)
  }

  /** `nodeStateMap`: the position of each node by name, of a repeated name the last one. Go keeps a
      pointer into the slice. */
  method NodeStateMap(nodes: seq<NodeState>) returns (m: map<string, nat>)
    ensures m.Keys == NodeNames(nodes)
    ensures forall n | n in m :: m[n] < |nodes| && nodes[m[n]].name == n
    ensures LastOfEach(nodes, m)
  {
    m := map[];
    for i := 0 to |nodes|
      invariant m.Keys == NodeNames(nodes[..i])
      invariant forall n | n in m :: m[n] < i && nodes[m[n]].name == n
      invariant LastOfEach(nodes[..i], m)
    {
      NextPosition(nodes, i, m);
      m := m[nodes[i].name := i];
    }
    assert nodes[..|nodes|] == nodes;
  }

  /** No node of a name comes after the position stored for it. */
  ghost predicate LastOfEach(nodes: seq<NodeState>, m: map<string, nat>) {
    forall i | 0 <= i < |nodes| && nodes[i].name in m :: i <= m[nodes[i].name]
  }

  lemma NextPosition(nodes: seq<NodeState>, i: nat, m: map<string, nat>)
    requires i < |nodes| && m.Keys == NodeNames(nodes[..i]) && LastOfEach(nodes[..i], m)
    ensures m.Keys + {nodes[i].name} == NodeNames(nodes[..i + 1])
    ensures LastOfEach(nodes[..i + 1], m[nodes[i].name := i])
  {
    assert nodes[..i + 1] == nodes[..i] + [nodes[i]];
    AppendedNames(nodes[..i], nodes[i]);
  }

  /** `ensureWorkflowNodeStates`. */
  method EnsureWorkflowNodeStates(spec: Spec, state: ExecutionState)
    modifies state`nodes
    ensures state.nodes == Ensured(spec.jobs, old(state.nodes))
  {
    var nodes := NodeStateMap(state.nodes);
    for i := 0 to |spec.jobs|
      invariant state.nodes == Ensured(spec.jobs[..i], old(state.nodes))
    {
      var name := spec.jobs[i].name;
      assert spec.jobs[..i + 1][..i] == spec.jobs[..i] && spec.jobs[..i + 1][i] == spec.jobs[i];
      if name !in nodes {
        state.nodes := state.nodes + [NodeState(name, "", Pending)];
      }
    }
    assert spec.jobs[..|spec.jobs|] == spec.jobs;
  }

  // ---- Observing ----------------------------------------------------------------------------

  /** `observeWorkflowNodeJobs`: reads the Job of every node that has one, in list order; the first
      failing read ends it with the nodes before it updated. */
  method ObserveWorkflowNodeJobs(cluster: Cluster, state: ExecutionState, faults: Faults)
    returns (active: nat, failed: set<string>, err: bool)
    modifies state`nodes
    ensures var nodes, k := old(state.nodes), FaultFrom(old(state.nodes), faults, 0);
            && state.nodes == ObservedUpTo(nodes, cluster.jobs, k)
            && (err <==> k < |nodes|)
            && (!err ==>
                  && active == |ActiveUpTo(nodes, cluster.jobs, |nodes|)|
                  && failed == FailedUpTo(nodes, cluster.jobs, |nodes|))
  {
    active, failed, err := 0, {}, false;
    ghost var before, jobs := state.nodes, cluster.jobs;
    assert before == ObservedUpTo(before, jobs, 0);
    for i := 0 to |state.nodes|
      invariant state.nodes == ObservedUpTo(before, jobs, i)
      invariant active == |ActiveUpTo(before, jobs, i)| && failed == FailedUpTo(before, jobs, i)
      invariant FaultFrom(before, faults, 0) == FaultFrom(before, faults, i)
    {
      var node := state.nodes[i];
      ObservedNext(before, jobs, i);
      if node.jobName != "" {
        var r := cluster.Get(node.jobName, node.name in faults.observe);
        if r.ReadFailed? {
          err := true;
          return;
        }
        var seen, takesSlot, isFailed := ObserveNode(node, r, jobs);
        state.nodes := state.nodes[i := seen];
        if takesSlot { active := active + 1; }
        if isFailed { failed := failed + {node.name}; }
      }
    }
  }

  /** The branches of the loop body. */
  method ObserveNode(node: NodeState, r: Read, ghost jobs: Jobs)
    returns (seen: NodeState, takesSlot: bool, isFailed: bool)
    requires node.jobName != "" && r == if node.jobName in jobs then Found(jobs[node.jobName]) else NotFound
    ensures seen == Observed(node, jobs) && takesSlot == TakesSlot(node, jobs) && isFailed == FoundFailed(node, jobs)
  {
    if r.NotFound? { return node.(phase := Failed), false, true; }
    var job := r.job;
    if job.complete { return node.(phase := Succeeded), false, false; }
    if job.failed { return node.(phase := Failed), false, true; }
    if job.active > 0 { return node.(phase := Running), true, false; }
    if node.phase.Pending? { return node.(phase := Running), true, false; }
    return node, false, false;
  }

  lemma ObservedNext(nodes: seq<NodeState>, jobs: Jobs, i: nat)
    requires i < |nodes|
    ensures ObservedUpTo(nodes, jobs, i)[i] == nodes[i]
    ensures ObservedUpTo(nodes, jobs, i + 1) == ObservedUpTo(nodes, jobs, i)[i := Observed(nodes[i], jobs)]
    ensures |ActiveUpTo(nodes, jobs, i + 1)|
            == |ActiveUpTo(nodes, jobs, i)| + if TakesSlot(nodes[i], jobs) then 1 else 0
    ensures FailedUpTo(nodes, jobs, i + 1)
            == FailedUpTo(nodes, jobs, i) + if FoundFailed(nodes[i], jobs) then {nodes[i].name} else {}
  {
    ActiveNext(nodes, jobs, i);
    FailedNext(nodes, jobs, i);
  }

  lemma ActiveNext(nodes: seq<NodeState>, jobs: Jobs, i: nat)
    requires i < |nodes|
    ensures |ActiveUpTo(nodes, jobs, i + 1)|
            == |ActiveUpTo(nodes, jobs, i)| + if TakesSlot(nodes[i], jobs) then 1 else 0
  {
    if TakesSlot(nodes[i], jobs) {
      assert ActiveUpTo(nodes, jobs, i + 1) == ActiveUpTo(nodes, jobs, i) + {i as int};
    } else {
      assert ActiveUpTo(nodes, jobs, i + 1) == ActiveUpTo(nodes, jobs, i);
    }
  }

  lemma FailedNext(nodes: seq<NodeState>, jobs: Jobs, i: nat)
    requires i < |nodes|
    ensures FailedUpTo(nodes, jobs, i + 1)
            == FailedUpTo(nodes, jobs, i) + if FoundFailed(nodes[i], jobs) then {nodes[i].name} else {}
  {
    var more, less := FailedUpTo(nodes, jobs, i + 1), FailedUpTo(nodes, jobs, i);
    forall n | n in more ensures n in less || (FoundFailed(nodes[i], jobs) && n == nodes[i].name) {
      var k :| 0 <= k < i + 1 && FoundFailed(nodes[k], jobs) && nodes[k].name == n;
      if k < i { assert nodes[k].name in less; }
    }
  }

  // ---- The failure policy -------------------------------------------------------------------

  /** `applyFailurePolicy`. */
  method ApplyFailurePolicy(policy: FailurePolicy, state: ExecutionState, reverse: Graph, failed: seq<string>)
    requires UniqueNames(state.nodes) && EdgesLeadToNodes(state.nodes, reverse)
    modifies state`nodes
    ensures state.nodes == AfterPolicy(old(state.nodes), policy, reverse, Elements(failed))
  {
    NoElements(failed);
    if |failed| == 0 {
      NothingFailed(state.nodes, policy, reverse);
      return;
    }
    match policy
    case BestEffort =>
      assert state.nodes == AfterPolicy(state.nodes, policy, reverse, Elements(failed));
    case ContinueIndependent =>
      var toSkip := DescendantNodes(reverse, failed);
      StrictlySortedNoDuplicates(toSkip);
      forall n | n in toSkip ensures n in NodeNames(state.nodes) {
        ReachedIsNode(reverse, Elements(failed), NodeNames(state.nodes), n);
      }
      SkipNamed(state, toSkip);
      assert state.nodes == AfterPolicy(old(state.nodes), policy, reverse, Elements(failed));
    case _ =>
      SkipPending(state);
      assert state.nodes == AfterPolicy(old(state.nodes), policy, reverse, Elements(failed));
  }

  /** The loop of ContinueIndependent: every name is a node, so the pointer is never nil. */
  method SkipNamed(state: ExecutionState, names: seq<string>)
    requires UniqueNames(state.nodes) && NoDuplicates(names) && forall n | n in names :: n in NodeNames(state.nodes)
    modifies state`nodes
    ensures state.nodes == SkippedAmong(old(state.nodes), names)
  {
    ghost var before := state.nodes;
    var nodes := NodeStateMap(state.nodes);
    assert state.nodes == SkippedAmong(before, names[..0]);
    for j := 0 to |names|
      invariant state.nodes == SkippedAmong(before, names[..j])
    {
      assert names[j] in names;
      var i := nodes[names[j]];
      SkipOne(before, names, j, i);
      if state.nodes[i].phase.Pending? {
        state.nodes := state.nodes[i := state.nodes[i].(phase := Skipped)];
      }
    }
    assert names[..|names|] == names;
  }

  /** The loop of the default policy: every pending node is looked up by name and skipped. */
  method SkipPending(state: ExecutionState)
    requires UniqueNames(state.nodes)
    modifies state`nodes
    ensures |state.nodes| == |old(state.nodes)|
    ensures forall i | 0 <= i < |state.nodes| ::
              var n := old(state.nodes)[i];
              state.nodes[i] == if n.phase.Pending? then n.(phase := Skipped) else n
  {
    ghost var before := state.nodes;
    var nodes := NodeStateMap(state.nodes);
    for j := 0 to |state.nodes|
      invariant |state.nodes| == |before|
      invariant forall i | 0 <= i < |before| ::
        state.nodes[i] == if i < j && before[i].phase.Pending? then before[i].(phase := Skipped) else before[i]
    {
      if state.nodes[j].phase.Pending? {
        assert before[j].name in NodeNames(before);
        var i := nodes[state.nodes[j].name];
        assert before[i].name == before[j].name && i == j;
        state.nodes := state.nodes[i := state.nodes[i].(phase := Skipped)];
      }
    }
  }

  /** Pending nodes named in `names` are skipped. */
  ghost function SkippedAmong(nodes: seq<NodeState>, names: seq<string>): seq<NodeState> {
    seq(|nodes|, i requires 0 <= i < |nodes| =>
      if nodes[i].phase.Pending? && nodes[i].name in names then nodes[i].(phase := Skipped) else nodes[i])
  }

  lemma SkipOne(nodes: seq<NodeState>, names: seq<string>, j: nat, i: nat)
    requires UniqueNames(nodes) && NoDuplicates(names) && j < |names| && i < |nodes| && nodes[i].name == names[j]
    ensures var now := SkippedAmong(nodes, names[..j]);
            && now[i] == nodes[i]
            && SkippedAmong(nodes, names[..j + 1])
               == if now[i].phase.Pending? then now[i := now[i].(phase := Skipped)] else now
  {
    assert names[..j + 1] == names[..j] + [names[j]];
    assert names[j] !in names[..j];
  }

  lemma ReachedIsNode(reverse: Graph, roots: set<string>, names: set<string>, n: string)
    requires ReachedFrom(reverse, roots, n) && forall a, b | Edge(reverse, a, b) :: b in names
    ensures n in names
  {
    var r :| r in roots && Reaches(reverse, r, n);
    var b := LastEdge(reverse, r, n);
  }

  // ---- Scheduling ---------------------------------------------------------------------------

  /** The inner loop of `runnableNodes`. */
  method DependenciesAllow(policy: FailurePolicy, nodes: seq<NodeState>, index: map<string, nat>, deps: Graph,
                           name: string)
    returns (canRun: bool)
    requires UniqueNames(nodes) && EdgesLeadToNodes(nodes, deps)
    requires index.Keys == NodeNames(nodes) && forall n | n in index :: index[n] < |nodes| && nodes[index[n]].name == n
    ensures canRun <==>
            forall j | 0 <= j < |nodes| && Edge(deps, name, nodes[j].name) :: Releases(policy, nodes[j].phase)
  {
    var dependencies := Targets(deps, name);
    for i := 0 to |dependencies|
      invariant forall j | 0 <= j < |nodes| && nodes[j].name in dependencies[..i] :: Releases(policy, nodes[j].phase)
    {
      var dep := dependencies[i];
      assert Edge(deps, name, dep);
      var depPhase := nodes[index[dep]].phase;
      assert forall j | 0 <= j < |nodes| && nodes[j].name == dep :: j == index[dep];
      assert dependencies[..i + 1] == dependencies[..i] + [dep];
      if depPhase.Succeeded? || depPhase.Skipped? { continue; }
      if depPhase.Failed? {
        if policy.BestEffort? { continue; }
        return false;
      }
      return false;
    }
    assert dependencies[..|dependencies|] == dependencies;
    return true;
  }

  /** `runnableNodes`: the map of nodes is walked in any order. */
  method RunnableNodes(policy: FailurePolicy, nodes: seq<NodeState>, deps: Graph) returns (runnable: seq<string>)
    requires UniqueNames(nodes) && EdgesLeadToNodes(nodes, deps)
    ensures NoDuplicates(runnable) && Elements(runnable) == Runnable(policy, nodes, deps)
  {
    var index := NodeStateMap(nodes);
    runnable := [];
    var rest := index.Keys;
    NoElements<string>([]);
    while rest != {}
      invariant rest <= index.Keys && NoDuplicates(runnable)
      invariant Elements(runnable) == Runnable(policy, nodes, deps) - rest
      decreases rest
    {
      var name :| name in rest;
      var node := nodes[index[name]];
      var canRun := false;
      if node.phase.Pending? {
        canRun := DependenciesAllow(policy, nodes, index, deps, name);
      }
      RunnableMember(policy, nodes, deps, index[name]);
      assert Elements(runnable + [name]) == Elements(runnable) + {name};
      assert name !in Elements(runnable);
      if canRun { runnable := runnable + [name]; }
      rest := rest - {name};
    }
    RunnableAreNodes(policy, nodes, deps);
  }

  /** `jobTemplatesByName`, read as Go reads a map. */
  method JobTemplatesByName(jobs: seq<JobTemplate>) returns (m: map<string, JobSpec>)
    ensures forall n :: (if n in m then m[n] else EMPTY_SPEC) == TemplateOf(jobs, n)
  {
    m := map[];
    for i := 0 to |jobs|
      invariant forall n :: (if n in m then m[n] else EMPTY_SPEC) == TemplateOf(jobs[..i], n)
    {
      m := m[jobs[i].name := jobs[i].template];
      assert jobs[..i + 1][..i] == jobs[..i] && jobs[..i + 1][i] == jobs[i];
    }
    assert jobs[..|jobs|] == jobs;
  }

  /** The Job the scheduler builds: a copy of the template, labelled, hardened in place, with the
      Secret injected. */
  method BuildJob(spec: Spec, template: JobSpec, secretName: string, ghost node: string) returns (job: Job)
    requires template == TemplateOf(spec.jobs, node)
    ensures job == NewJob(spec, secretName, node)
  {
    var built := new JobSpecObject(template.(podLabels := template.podLabels + RESERVED_LABELS));
    built.ApplyJobSecurityDefaults(TTL(spec));
    built.InjectCertificateSecret(secretName);
    var value := built.Value();
    job := Job(value, false, false, 0);
  }

  /** Looks the Job up and creates it if it is missing. */
  method EnsureJob(ctx: Context, cert: Certificate, cluster: Cluster, template: JobSpec, jobName: string, node: string,
                   faults: Faults)
    returns (ok: bool)
    requires template == TemplateOf(ctx.spec.jobs, node)
    modifies cluster
    ensures var missing := jobName !in old(cluster.jobs);
            && (ok <==> node !in faults.lookup && (missing ==> node !in faults.refused + faults.lost))
            && cluster.jobs
               == if missing && node !in faults.lookup && (node !in faults.refused + faults.lost || node in faults.lost)
                  then old(cluster.jobs)[jobName := NewJob(ctx.spec, cert.secretName, node)]
                  else old(cluster.jobs)
  {
    var existing := cluster.Get(jobName, node in faults.lookup);
    if existing.ReadFailed? { return false; }
    if existing.NotFound? {
      var job := BuildJob(ctx.spec, template, cert.secretName, node);
      var fault := if node in faults.lost then Lost else if node in faults.refused then Refused else NoFault;
      ok := cluster.Create(jobName, job, fault);
      return;
    }
    return true;
  }

  /** The Job of the node exists after its turn and no call failed. */
  ghost predicate JobEnsured(run: Run, jobs: Jobs, node: string, faults: Faults) {
    node !in faults.lookup && (run.nameOf(node) !in jobs ==> node !in faults.refused + faults.lost)
  }

  /** The cluster after the turn of the node. */
  ghost function JobsThen(run: Run, jobs: Jobs, node: string, faults: Faults): Jobs {
    if run.nameOf(node) !in jobs && node !in faults.lookup
      && (node !in faults.refused + faults.lost || node in faults.lost)
    then jobs[run.nameOf(node) := run.newJob(node)] else jobs
  }

  /** One turn of the scheduling loop: makes sure the Job is there and records the node as running. */
  method StartNode(ctx: Context, cert: Certificate, cluster: Cluster, state: ExecutionState, template: JobSpec,
                   i: nat, node: string, faults: Faults, ghost run: Run)
    returns (ok: bool)
    requires template == TemplateOf(ctx.spec.jobs, node) && i < |state.nodes|
    requires run == RunOf(ctx, cert.name, cert.secretName, state.runID)
    modifies cluster, state`nodes
    ensures ok == JobEnsured(run, old(cluster.jobs), node, faults)
    ensures cluster.jobs == JobsThen(run, old(cluster.jobs), node, faults)
    ensures state.nodes
            == if ok then old(state.nodes)[i := NodeState(old(state.nodes)[i].name, run.nameOf(node), Running)]
               else old(state.nodes)
  {
    var jobName := Naming.BuildJobName(ctx.hash, ctx.lower, ctx.cjob, cert.name, node, state.runID);
    ok := EnsureJob(ctx, cert, cluster, template, jobName, node, faults);
    if ok { state.nodes := state.nodes[i := NodeState(state.nodes[i].name, jobName, Running)]; }
  }

  /** `scheduleRunnableNodes`: takes the runnable nodes in order of name while slots remain. */
  method ScheduleRunnableNodes(ctx: Context, cert: Certificate, cluster: Cluster, state: ExecutionState, deps: Graph,
                               slots: nat, faults: Faults)
    returns (scheduled: nat, err: bool)
    requires UniqueNames(state.nodes) && EdgesLeadToNodes(state.nodes, deps) && deps == Deps(ctx.spec)
    modifies cluster, state`nodes
    ensures var run := RunOf(ctx, cert.name, cert.secretName, state.runID);
            var out := Scheduled(run, old(state.nodes), old(cluster.jobs), slots, faults);
            && state.nodes == out.nodes && cluster.jobs == out.jobs && err == out.err && scheduled == |out.started|
  {
    ghost var run := RunOf(ctx, cert.name, cert.secretName, state.runID);
    var listed := RunnableNodes(ctx.spec.failurePolicy, state.nodes, deps);
    var runnable := Sorted(listed);
    SortedUnique(runnable, Order(run, state.nodes));
    RunnableAreNodes(ctx.spec.failurePolicy, state.nodes, deps);
    StrictlySortedNoDuplicates(runnable);
    scheduled, err := StartInOrder(ctx, cert, cluster, state, runnable, slots, faults, run);
  }

  /** The scheduling loop. */
  method StartInOrder(ctx: Context, cert: Certificate, cluster: Cluster, state: ExecutionState, runnable: seq<string>,
                      slots: nat, faults: Faults, ghost run: Run)
    returns (scheduled: nat, err: bool)
    requires UniqueNames(state.nodes) && NoDuplicates(runnable) && Elements(runnable) <= NodeNames(state.nodes)
    requires run == RunOf(ctx, cert.name, cert.secretName, state.runID)
    modifies cluster, state`nodes
    ensures var out := Attempt(run, old(state.nodes), old(cluster.jobs), runnable, slots, faults);
            && state.nodes == out.nodes && cluster.jobs == out.jobs && err == out.err && scheduled == |out.started|
  {
    ghost var before, jobs := state.nodes, cluster.jobs;
    var templates := JobTemplatesByName(ctx.spec.jobs);
    var index := NodeStateMap(state.nodes);
    scheduled, err := 0, false;
    NothingStarted(run, before, jobs, runnable);
    var available := slots;
    while scheduled < |runnable| && !err
      invariant scheduled <= |runnable| && available == slots - scheduled
      invariant Scheduling(run, before, jobs, runnable, slots, faults, scheduled, err, state.nodes, cluster.jobs)
      decreases |runnable| - scheduled, !err
    {
      if available == 0 { break; }
      var nodeName := runnable[scheduled];
      assert nodeName in Elements(runnable);
      var template := if nodeName in templates then templates[nodeName] else EMPTY_SPEC;
      SchedulingNext(run, before, jobs, runnable, slots, faults, scheduled, index[nodeName], state.nodes, cluster.jobs);
      var ok := StartNode(ctx, cert, cluster, state, template, index[nodeName], nodeName, faults, run);
      if !ok {
        err := true;
      } else {
        available := available - 1;
        scheduled := scheduled + 1;
      }
    }
    SchedulingDone(run, before, jobs, runnable, slots, faults, scheduled, err, state.nodes, cluster.jobs);
  }

  /** Where the scheduling loop stands after `k` nodes: still going, or stopped at the next one. */
  ghost predicate Scheduling(run: Run, nodes: seq<NodeState>, jobs: Jobs, order: seq<string>, slots: nat,
                             faults: Faults, k: nat, stopped: bool, nowNodes: seq<NodeState>, nowJobs: Jobs)
    requires k <= |order| && k <= slots
  {
    && nowNodes == Started(run, nodes, Elements(order[..k]))
    && StartedCount(run, jobs, order, slots, faults, 0) == StartedCount(run, jobs, order, slots, faults, k)
    && if !stopped then nowJobs == JobsAfter(run, jobs, order[..k])
       else k < |order| && k < slots && StopsAt(run, jobs, order, faults, k)
            && nowJobs == JobsAfter(run, jobs, order[..if LostAt(run, jobs, order, faults, k) then k + 1 else k])
  }

  lemma NothingStarted(run: Run, nodes: seq<NodeState>, jobs: Jobs, order: seq<string>)
    ensures nodes == Started(run, nodes, Elements(order[..0])) && jobs == JobsAfter(run, jobs, order[..0])
  {
    NoElements(order[..0]);
  }

  /** The state after one more node, given how its lookup and creation went. */
  lemma SchedulingNext(run: Run, nodes: seq<NodeState>, jobs: Jobs, order: seq<string>, slots: nat, faults: Faults,
                       k: nat, i: nat, nowNodes: seq<NodeState>, nowJobs: Jobs)
    requires UniqueNames(nodes) && NoDuplicates(order) && k < |order| && k < slots
    requires Scheduling(run, nodes, jobs, order, slots, faults, k, false, nowNodes, nowJobs)
    requires i < |nodes| && nodes[i].name == order[k]
    ensures |nowNodes| == |nodes| && nowNodes[i] == nodes[i]
    ensures var thenJobs := JobsThen(run, nowJobs, order[k], faults);
            if JobEnsured(run, nowJobs, order[k], faults)
            then Scheduling(run, nodes, jobs, order, slots, faults, k + 1, false,
                            nowNodes[i := NodeState(nowNodes[i].name, run.nameOf(order[k]), Running)], thenJobs)
            else Scheduling(run, nodes, jobs, order, slots, faults, k, true, nowNodes, thenJobs)
  {
    StartNext(run, nodes, order, k, i);
    CreateNext(run, jobs, order, k);
  }

  lemma SchedulingDone(run: Run, nodes: seq<NodeState>, jobs: Jobs, order: seq<string>, slots: nat, faults: Faults,
                       k: nat, stopped: bool, nowNodes: seq<NodeState>, nowJobs: Jobs)
    requires k <= |order| && k <= slots && (stopped || k == |order| || k == slots)
    requires Scheduling(run, nodes, jobs, order, slots, faults, k, stopped, nowNodes, nowJobs)
    ensures var out := Attempt(run, nodes, jobs, order, slots, faults);
            nowNodes == out.nodes && nowJobs == out.jobs && stopped == out.err && k == |out.started|
  {
    assert StartedCount(run, jobs, order, slots, faults, k) == k;
  }

  lemma CreateNext(run: Run, jobs: Jobs, order: seq<string>, k: nat)
    requires k < |order|
    ensures var now := JobsAfter(run, jobs, order[..k]);
            JobsAfter(run, jobs, order[..k + 1])
            == if run.nameOf(order[k]) in now then now else now[run.nameOf(order[k]) := run.newJob(order[k])]
  {
    assert order[..k + 1][..k] == order[..k] && order[..k + 1][k] == order[k];
  }

  lemma StartNext(run: Run, nodes: seq<NodeState>, order: seq<string>, k: nat, i: nat)
    requires UniqueNames(nodes) && NoDuplicates(order) && k < |order| && i < |nodes| && nodes[i].name == order[k]
    ensures var now := Started(run, nodes, Elements(order[..k]));
            && now[i] == nodes[i]
            && Started(run, nodes, Elements(order[..k + 1]))
               == now[i := NodeState(now[i].name, run.nameOf(order[k]), Running)]
  {
    assert order[..k + 1] == order[..k] + [order[k]];
    assert Elements(order[..k + 1]) == Elements(order[..k]) + {order[k]};
    assert order[k] !in Elements(order[..k]);
  }

  // ---- Phase and pass -----------------------------------------------------------------------

  /** `deriveWorkflowPhase`: flags collected in one loop. */
  method DeriveWorkflowPhase(nodes: seq<NodeState>) returns (phase: Phase)
    ensures phase == Derived(nodes)
  {
    var hasRunning, hasPending, hasFailed, allTerminal := false, false, false, true;
    for i := 0 to |nodes|
      invariant hasFailed <==> Any(nodes[..i], Failed)
      invariant hasRunning <==> Any(nodes[..i], Running)
      invariant hasPending <==> Any(nodes[..i], Pending)
      invariant allTerminal <==> !Any(nodes[..i], Running) && !Any(nodes[..i], Pending) && !Any(nodes[..i], Unset)
    {
      AnyNext(nodes, i);
      match nodes[i].phase
      case Failed => hasFailed := true;
      case Running => hasRunning, allTerminal := true, false;
      case Pending => hasPending, allTerminal := true, false;
      case Succeeded =>
      case Skipped =>
      case Unset => allTerminal := false;
    }
    assert nodes[..|nodes|] == nodes;
    if hasFailed { return Failed; }
    if hasRunning { return Running; }
    if hasPending { return Pending; }
    if allTerminal { return Succeeded; }
    return Pending;
  }

  lemma AnyNext(nodes: seq<NodeState>, i: nat)
    requires i < |nodes|
    ensures forall p :: Any(nodes[..i + 1], p) <==> Any(nodes[..i], p) || nodes[i].phase == p
  {
    assert nodes[..i + 1] == nodes[..i] + [nodes[i]];
    forall p ensures Any(nodes[..i + 1], p) <==> Any(nodes[..i], p) || nodes[i].phase == p {
      if Any(nodes[..i], p) {
        var k :| 0 <= k < i && nodes[..i][k].phase == p;
        assert nodes[..i + 1][k].phase == p;
      }
      if Any(nodes[..i + 1], p) && nodes[i].phase != p {
        var k :| 0 <= k < i + 1 && nodes[..i + 1][k].phase == p;
        assert nodes[..i][k].phase == p;
      }
      assert nodes[..i + 1][i] == nodes[i];
    }
  }

  /** `reconcileCertificateRun`. Nodes and cluster are as `RunPass` says on every exit; the phase is
      derived only when no call failed. */
  method ReconcileCertificateRun(ctx: Context, cert: Certificate, cluster: Cluster, state: ExecutionState, deps: Graph,
                                 reverse: Graph, faults: Faults)
    returns (running: bool, failed: bool, err: bool)
    requires Accepted(ctx.spec) && deps == Deps(ctx.spec) && reverse == Reverse(ctx.spec)
    requires UniqueNames(state.nodes)
    modifies cluster, state`nodes, state`phase
    ensures var run := RunOf(ctx, cert.name, cert.secretName, state.runID);
            var out := RunPass(run, old(state.nodes), old(cluster.jobs), faults);
            && state.nodes == out.nodes && cluster.jobs == out.jobs && err == out.err
            && state.phase == (if err then old(state.phase) else Derived(out.nodes))
            && (!err ==> running == (state.phase.Running? || state.phase.Pending?) && failed == state.phase.Failed?)
            && (err ==> running == !failed)
    ensures var nodes := Ensured(ctx.spec.jobs, old(state.nodes));
            err ==> (failed <==> FaultFrom(nodes, faults, 0) < |nodes|)
  {
    EnsuredCovers(ctx.spec.jobs, state.nodes);
    DepsClosed(ctx.spec);
    EnsureWorkflowNodeStates(ctx.spec, state);
    var observed;
    observed, err := AdvanceNodes(ctx, cert, cluster, state, deps, reverse, faults);
    if err { return observed, !observed, err; }
    state.phase := DeriveWorkflowPhase(state.nodes);
    running := state.phase.Running? || state.phase.Pending?;
    failed := state.phase.Failed?;
  }

  /** Observe, apply the failure policy, schedule. */
  method AdvanceNodes(ctx: Context, cert: Certificate, cluster: Cluster, state: ExecutionState, deps: Graph,
                      reverse: Graph, faults: Faults)
    returns (observed: bool, err: bool)
    requires deps == Deps(ctx.spec) && reverse == Reverse(ctx.spec)
    requires UniqueNames(state.nodes) && EdgesLeadToNodes(state.nodes, deps) && EdgesLeadToNodes(state.nodes, reverse)
    modifies cluster, state`nodes
    ensures var run := RunOf(ctx, cert.name, cert.secretName, state.runID);
            var out := NodePass(run, old(state.nodes), old(cluster.jobs), faults);
            state.nodes == out.nodes && cluster.jobs == out.jobs && err == out.err
    ensures observed <==> FaultFrom(old(state.nodes), faults, 0) == |old(state.nodes)|
  {
    var active;
    active, err := ObserveAndSettle(ctx.spec, cluster, state, reverse, faults);
    observed := !err;
    if err { return; }
    KeepsNames(old(state.nodes), state.nodes);
    var available := Parallelism(ctx.spec) - active;
    if available > 0 {
      var scheduled;
      scheduled, err := ScheduleRunnableNodes(ctx, cert, cluster, state, deps, available, faults);
    }
  }

  method ObserveAndSettle(spec: Spec, cluster: Cluster, state: ExecutionState, reverse: Graph, faults: Faults)
    returns (active: nat, err: bool)
    requires reverse == Reverse(spec) && UniqueNames(state.nodes) && EdgesLeadToNodes(state.nodes, reverse)
    modifies state`nodes
    ensures SameNames(old(state.nodes), state.nodes)
    ensures var nodes, k := old(state.nodes), FaultFrom(old(state.nodes), faults, 0);
            && (err <==> k < |nodes|)
            && (err ==> state.nodes == ObservedUpTo(nodes, cluster.jobs, k))
            && (!err ==>
                  && state.nodes == AfterPolicy(ObservedUpTo(nodes, cluster.jobs, |nodes|), spec.failurePolicy, reverse,
                                                FailedUpTo(nodes, cluster.jobs, |nodes|))
                  && active == |ActiveUpTo(nodes, cluster.jobs, |nodes|)|)
  {
    var failedNodes;
    active, failedNodes, err := ObserveWorkflowNodeJobs(cluster, state, faults);
    if err { return; }
    KeepsNames(old(state.nodes), state.nodes);
    Settle(spec, state, reverse, failedNodes);
  }

  /** The policy is applied only when a node failed. */
  method Settle(spec: Spec, state: ExecutionState, reverse: Graph, failedNodes: set<string>)
    requires UniqueNames(state.nodes) && EdgesLeadToNodes(state.nodes, reverse)
    modifies state`nodes
    ensures state.nodes == AfterPolicy(old(state.nodes), spec.failurePolicy, reverse, failedNodes)
  {
    if failedNodes != {} {
      var list := UnsortedList(failedNodes);
      ApplyFailurePolicy(spec.failurePolicy, state, reverse, list);
    } else {
      NothingFailed(state.nodes, spec.failurePolicy, reverse);
    }
  }

  lemma KeepsNames(a: seq<NodeState>, b: seq<NodeState>)
    requires UniqueNames(a) && SameNames(a, b)
    ensures UniqueNames(b) && NodeNames(a) == NodeNames(b)
  {
    SettledNames(a, b);
  }

  lemma NothingFailed(nodes: seq<NodeState>, policy: FailurePolicy, reverse: Graph)
    ensures AfterPolicy(nodes, policy, reverse, {}) == nodes
  {
  }

  // ---- One certificate ----------------------------------------------------------------------

  /** `initializeNodeStates`. */
  method InitializeNodeStates(spec: Spec) returns (nodes: seq<NodeState>)
    requires GoodJobs(spec.jobs)
    ensures nodes == InitialNodes(spec)
  {
    var names: seq<string> := [];
    for i := 0 to |spec.jobs|
      invariant |names| == i && forall k | 0 <= k < i :: names[k] == spec.jobs[k].name
    {
      names := names + [spec.jobs[i].name];
    }
    CollectedNames(spec.jobs, names);
    var sorted := Sorted(names);
    nodes := seq(|sorted|, i requires 0 <= i < |sorted| => NodeState(sorted[i], "", Pending));
    SortedIsInitial(spec, sorted, nodes);
  }

  lemma SortedIsInitial(spec: Spec, sorted: seq<string>, nodes: seq<NodeState>)
    requires StrictlySorted(sorted) && Elements(sorted) == JobNames(spec.jobs)
    requires |nodes| == |sorted| && forall i | 0 <= i < |sorted| :: nodes[i] == NodeState(sorted[i], "", Pending)
    ensures nodes == InitialNodes(spec)
  {
    SortedUnique(sorted, InOrder(JobNames(spec.jobs)));
  }

  lemma CollectedNames(jobs: seq<JobTemplate>, names: seq<string>)
    requires GoodJobs(jobs) && |names| == |jobs| && forall k | 0 <= k < |jobs| :: names[k] == jobs[k].name
    ensures NoDuplicates(names) && Elements(names) == JobNames(jobs)
  {
    forall n | n in Elements(names) ensures n in JobNames(jobs) {
      var k :| 0 <= k < |names| && names[k] == n;
      assert jobs[k].name == n;
    }
    forall n | n in JobNames(jobs) ensures n in Elements(names) {
      var k :| 0 <= k < |jobs| && jobs[k].name == n;
      assert names[k] == n;
    }
  }

  /** `applyInputHashTransition`. */
  method ApplyInputHashTransition(ctx: Context, cert: Certificate, state: ExecutionState, hash: string)
    requires GoodJobs(ctx.spec.jobs)
    modifies state
    ensures state.View() == AfterHash(ctx.spec, cert.secretName, old(state.View()), hash)
  {
    if state.inputHash == "" || (state.inputHash != hash && IsTerminal(state.phase)) {
      state.secretName := cert.secretName;
      state.inputHash := hash;
      state.runID := Naming.ShortHash(hash, Naming.SUFFIX);
      state.phase := Pending;
      state.nodes := InitializeNodeStates(ctx.spec);
    }
  }

  /** `reconcileObservedCertificate`: one certificate, one pass. */
  method ReconcileObservedCertificate(ctx: Context, cert: Certificate, input: Input, cluster: Cluster,
                                      state: ExecutionState,
                                      deps: Graph, reverse: Graph, faults: Faults) returns (progress: Progress)
    requires Accepted(ctx.spec) && deps == Deps(ctx.spec) && reverse == Reverse(ctx.spec)
    requires UniqueNames(state.nodes)
    modifies cluster, state
    ensures CertOut(state.View(), cluster.jobs, progress)
            == CertPass(ctx, cert, input, old(state.View()), old(cluster.jobs), faults)
  {
    progress := NOTHING;
    if cert.secretName == "" {
      state.secretName := "";
      state.phase := Failed;
      return progress.(anyFailed := true);
    }
    if !input.Hashed? {
      if !IsTerminal(state.phase) {
        state.secretName := cert.secretName;
        state.phase := Pending;
        progress := progress.(anyInProgress := true, needsRequeue := true);
      }
      return;
    }
    ApplyInputHashTransition(ctx, cert, state, input.hash);
    if IsTerminal(state.phase) {
      if state.phase.Failed? { progress := progress.(anyFailed := true); }
      return;
    }
    BegunUnique(ctx.spec, cert.secretName, old(state.View()), input.hash);
    var running, failed, err := ReconcileCertificateRun(ctx, cert, cluster, state, deps, reverse, faults);
    if err {
      state.phase := Pending;
      return progress.(anyInProgress := true, needsRequeue := true);
    }
    if running { progress := progress.(anyInProgress := true, needsRequeue := true); }
    if failed || state.phase.Failed? { progress := progress.(anyFailed := true); }
  }

  lemma BegunUnique(spec: Spec, secretName: string, st: ExecState, hash: string)
    requires UniqueNames(st.nodes)
    ensures UniqueNames(AfterHash(spec, secretName, st, hash).nodes)
  {
    StrictlySortedNoDuplicates(InOrder(JobNames(spec.jobs)));
  }
}
