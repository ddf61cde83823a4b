/** What every state of a run satisfies, and that each stage of a pass keeps it. */
module RunInvariant {
  import opened StringOrder
  import opened DependencyGraph
  import opened WorkflowSpec
  import opened Workflow

  predicate HasJobPhase(p: Phase) {
    p.Running? || p.Succeeded? || p.Failed?
  }

  /** A Job that reports a failure and no completion. */
  predicate IsBroken(j: Job) {
    j.failed && !j.complete
  }

  /** An unfinished Job without active pods. */
  predicate IsIdle(j: Job) {
    !j.complete && !j.failed && j.active <= 0
  }

  /** A recorded result agrees with the cluster: the Job is still finished that way, or is gone. */
  ghost predicate NodeInv(run: Run, n: NodeState, jobs: Jobs) {
    && !n.phase.Unset?
    && (n.jobName != "" <==> HasJobPhase(n.phase))
    && (n.jobName != "" ==> n.jobName == run.nameOf(n.name))
    && (n.phase.Succeeded? && n.jobName in jobs ==> jobs[n.jobName].complete)
    && (n.phase.Failed? && n.jobName in jobs ==> IsBroken(jobs[n.jobName]))
  }

  ghost predicate NodesInv(run: Run, nodes: seq<NodeState>, jobs: Jobs) {
    forall i | 0 <= i < |nodes| :: NodeInv(run, nodes[i], jobs)
  }

  /** Every dependency of a node with a Job has finished. */
  ghost predicate Precedence(spec: Spec, nodes: seq<NodeState>) {
    forall i, j | 0 <= i < |nodes| && 0 <= j < |nodes| && nodes[i].jobName != ""
                  && Edge(Deps(spec), nodes[i].name, nodes[j].name) ::
      nodes[j].phase.Succeeded? || nodes[j].phase.Failed?
  }

  /** `m` failed, and under ContinueIndependent it is a transitive dependency of `n`. */
  ghost predicate Blames(spec: Spec, n: NodeState, m: NodeState) {
    m.phase.Failed? && (spec.failurePolicy.ContinueIndependent? ==> Reaches(Deps(spec), n.name, m.name))
  }

  /** A skipped node was skipped because of a node that failed. */
  ghost predicate SkipCause(spec: Spec, nodes: seq<NodeState>) {
    forall i {:trigger HasCause(spec, nodes, i)} | 0 <= i < |nodes| && nodes[i].phase.Skipped? ::
      HasCause(spec, nodes, i)
  }

  ghost predicate HasCause(spec: Spec, nodes: seq<NodeState>, i: int)
    requires 0 <= i < |nodes|
  {
    !spec.failurePolicy.BestEffort? && exists j :: 0 <= j < |nodes| && Blames(spec, nodes[i], nodes[j])
  }

  ghost predicate MatchesSpec(spec: Spec, nodes: seq<NodeState>) {
    Accepted(spec) && UniqueNames(nodes) && NodeNames(nodes) == JobNames(spec.jobs)
  }

  ghost predicate RunInv(run: Run, nodes: seq<NodeState>, jobs: Jobs) {
    && MatchesSpec(run.spec, nodes)
    && NodesInv(run, nodes, jobs)
    && Precedence(run.spec, nodes)
    && SkipCause(run.spec, nodes)
  }

  /** Different nodes of the run get different, non-empty Job names: the assumption on the hash. */
  ghost predicate DistinctNames(run: Run, names: set<string>) {
    && (forall a | a in names :: run.nameOf(a) != "")
    && (forall a, b | a in names && b in names && run.nameOf(a) == run.nameOf(b) :: a == b)
  }

  /** A node's position from its name. */
  lemma Position(nodes: seq<NodeState>, name: string) returns (i: nat)
    requires name in NodeNames(nodes)
    ensures i < |nodes| && nodes[i].name == name
  {
    i :| 0 <= i < |nodes| && nodes[i].name == name;
  }

  lemma SettledNames(a: seq<NodeState>, b: seq<NodeState>)
    requires SameNames(a, b)
    ensures NodeNames(a) == NodeNames(b)
  {
    forall n | n in NodeNames(a) ensures n in NodeNames(b) {
      var i := Position(a, n);
      assert b[i].name == n;
    }
    forall n | n in NodeNames(b) ensures n in NodeNames(a) {
      var i := Position(b, n);
      assert a[i].name == n;
    }
  }

  lemma SameNamesMatch(spec: Spec, a: seq<NodeState>, b: seq<NodeState>)
    requires MatchesSpec(spec, a) && SameNames(a, b)
    ensures MatchesSpec(spec, b)
  {
    SettledNames(a, b);
  }

  // ---- Ensuring -----------------------------------------------------------------------------

  lemma {:induction false} EnsuredNothing(jobs: seq<JobTemplate>, nodes: seq<NodeState>)
    requires JobNames(jobs) <= NodeNames(nodes)
    ensures Ensured(jobs, nodes) == nodes
  {
    if jobs != [] {
      var front := jobs[..|jobs| - 1];
      assert jobs[|jobs| - 1].name in JobNames(jobs);
      forall n | n in JobNames(front) ensures n in JobNames(jobs) {
        var i :| 0 <= i < |front| && front[i].name == n;
        assert jobs[i].name == n;
      }
      EnsuredNothing(front, nodes);
    }
  }

  /** For any stored list, also one kept from before the spec was edited: the list the pass works
      on starts with the stored nodes, has no duplicates, and covers every template. */
  lemma {:induction false} EnsuredCovers(jobs: seq<JobTemplate>, nodes: seq<NodeState>)
    requires GoodJobs(jobs) && UniqueNames(nodes)
    ensures var r := Ensured(jobs, nodes);
            && nodes <= r && UniqueNames(r)
            && NodeNames(r) == NodeNames(nodes) + JobNames(jobs)
            && forall i | |nodes| <= i < |r| :: r[i].phase.Pending? && r[i].jobName == ""
  {
    if jobs != [] {
      var front, last := jobs[..|jobs| - 1], jobs[|jobs| - 1];
      EnsuredCovers(front, nodes);
      var rest, r := Ensured(front, nodes), Ensured(jobs, nodes);
      LastJob(jobs);
      if last.name !in NodeNames(nodes) {
        assert r == rest + [NodeState(last.name, "", Pending)];
        forall i | 0 <= i < |rest| ensures rest[i].name != last.name { assert rest[i].name in NodeNames(rest); }
        AppendedNames(rest, NodeState(last.name, "", Pending));
      }
    }
  }

  lemma LastJob(jobs: seq<JobTemplate>)
    requires GoodJobs(jobs) && jobs != []
    ensures GoodJobs(jobs[..|jobs| - 1])
    ensures JobNames(jobs) == JobNames(jobs[..|jobs| - 1]) + {jobs[|jobs| - 1].name}
    ensures jobs[|jobs| - 1].name !in JobNames(jobs[..|jobs| - 1])
  {
    var front := jobs[..|jobs| - 1];
    forall n | n in JobNames(front) ensures n in JobNames(jobs) && n != jobs[|jobs| - 1].name {
      var i :| 0 <= i < |front| && front[i].name == n;
      assert jobs[i].name == n;
    }
    forall n | n in JobNames(jobs) && n != jobs[|jobs| - 1].name ensures n in JobNames(front) {
      var i :| 0 <= i < |jobs| && jobs[i].name == n;
      assert front[i].name == n;
    }
    assert jobs[|jobs| - 1].name in JobNames(jobs);
  }

  lemma AppendedNames(nodes: seq<NodeState>, n: NodeState)
    ensures NodeNames(nodes + [n]) == NodeNames(nodes) + {n.name}
  {
    var r := nodes + [n];
    forall x | x in NodeNames(nodes) ensures x in NodeNames(r) {
      var i :| 0 <= i < |nodes| && nodes[i].name == x;
      assert r[i].name == x;
    }
    assert r[|nodes|].name in NodeNames(r);
  }

  // ---- Observing ----------------------------------------------------------------------------

  lemma ObservedKeepsNode(run: Run, n: NodeState, jobs: Jobs)
    requires NodeInv(run, n, jobs)
    ensures NodeInv(run, Observed(n, jobs), jobs)
    ensures n.phase.Failed? ==> Observed(n, jobs) == n
    ensures n.phase.Succeeded? ==> Observed(n, jobs).phase.Succeeded? || Observed(n, jobs).phase.Failed?
    ensures n.phase.Pending? || n.phase.Skipped? ==> Observed(n, jobs) == n
    ensures FoundFailed(n, jobs) <==> Observed(n, jobs).phase.Failed?
    ensures Observed(n, jobs).phase.Succeeded? <==>
            n.jobName != "" && n.jobName in jobs && jobs[n.jobName].complete
  {
  }

  /** Causes survive as long as failed nodes stay failed and nothing is newly skipped. */
  lemma CausesKept(spec: Spec, a: seq<NodeState>, b: seq<NodeState>)
    requires SkipCause(spec, a) && SameNames(a, b)
    requires forall i | 0 <= i < |a| :: a[i].phase.Failed? ==> b[i].phase.Failed?
    requires forall i | 0 <= i < |a| :: b[i].phase.Skipped? ==> a[i].phase.Skipped?
    ensures SkipCause(spec, b)
  {
    forall i | 0 <= i < |b| && b[i].phase.Skipped? ensures HasCause(spec, b, i) {
      assert HasCause(spec, a, i);
      var j :| 0 <= j < |a| && Blames(spec, a[i], a[j]);
      assert Blames(spec, b[i], b[j]);
    }
  }

  /** Precedence survives as long as no node gets a Job and finished nodes stay finished. */
  lemma PrecedenceKept(spec: Spec, a: seq<NodeState>, b: seq<NodeState>)
    requires Precedence(spec, a) && SameNames(a, b)
    requires forall i | 0 <= i < |a| :: b[i].jobName == a[i].jobName
    requires forall i | 0 <= i < |a| && (a[i].phase.Succeeded? || a[i].phase.Failed?) ::
             b[i].phase.Succeeded? || b[i].phase.Failed?
    ensures Precedence(spec, b)
  {
  }

  lemma ObservedNodes(run: Run, nodes: seq<NodeState>, jobs: Jobs, k: nat)
    requires NodesInv(run, nodes, jobs)
    ensures var seen := ObservedUpTo(nodes, jobs, k);
            && NodesInv(run, seen, jobs)
            && forall i | 0 <= i < |nodes| ::
                 && seen[i].jobName == nodes[i].jobName
                 && (nodes[i].phase.Failed? ==> seen[i].phase.Failed?)
                 && (nodes[i].phase.Succeeded? ==> seen[i].phase.Succeeded? || seen[i].phase.Failed?)
                 && (seen[i].phase.Skipped? ==> nodes[i].phase.Skipped?)
  {
    forall i | 0 <= i < |nodes| ensures NodeInv(run, Observed(nodes[i], jobs), jobs) {
      ObservedKeepsNode(run, nodes[i], jobs);
    }
  }

  lemma ObservingKeeps(run: Run, nodes: seq<NodeState>, jobs: Jobs, k: nat)
    requires RunInv(run, nodes, jobs)
    ensures RunInv(run, ObservedUpTo(nodes, jobs, k), jobs)
  {
    var seen := ObservedUpTo(nodes, jobs, k);
    ObservedNodes(run, nodes, jobs, k);
    SameNamesMatch(run.spec, nodes, seen);
    PrecedenceKept(run.spec, nodes, seen);
    CausesKept(run.spec, nodes, seen);
  }

  // ---- The failure policy -------------------------------------------------------------------

  /** After the policy no pending node is held by a failure: none is downstream of a failed node,
      and when the workflow stops at failures there is no pending node beside a failed one. */
  ghost predicate Cleared(spec: Spec, nodes: seq<NodeState>) {
    forall i, j | 0 <= i < |nodes| && 0 <= j < |nodes| && nodes[i].phase.Pending? && !spec.failurePolicy.BestEffort? ::
      !Blames(spec, nodes[i], nodes[j])
  }

  /** The names handed to the policy are those of the failed nodes. */
  lemma FailedAreFound(run: Run, nodes: seq<NodeState>, jobs: Jobs, i: nat)
    requires UniqueNames(nodes) && NodesInv(run, nodes, jobs) && i < |nodes|
    ensures nodes[i].name in FailedUpTo(nodes, jobs, |nodes|) <==> Observed(nodes[i], jobs).phase.Failed?
  {
    ObservedKeepsNode(run, nodes[i], jobs);
    if nodes[i].name in FailedUpTo(nodes, jobs, |nodes|) {
      var k :| 0 <= k < |nodes| && FoundFailed(nodes[k], jobs) && nodes[k].name == nodes[i].name;
      assert k == i;
    }
  }

  lemma FailedName(run: Run, nodes: seq<NodeState>, jobs: Jobs, name: string) returns (j: nat)
    requires NodesInv(run, nodes, jobs) && name in FailedUpTo(nodes, jobs, |nodes|)
    ensures j < |nodes| && nodes[j].name == name && Observed(nodes[j], jobs).phase.Failed?
  {
    j :| 0 <= j < |nodes| && FoundFailed(nodes[j], jobs) && nodes[j].name == name;
    ObservedKeepsNode(run, nodes[j], jobs);
  }

  /** Whom a newly skipped node blames. */
  lemma SkippedBlames(run: Run, nodes: seq<NodeState>, jobs: Jobs, n: NodeState) returns (j: nat)
    requires NodesInv(run, nodes, jobs) && GoodEdges(JobNames(run.spec.jobs), run.spec.edges)
    requires SkippedBy(run.spec.failurePolicy, Reverse(run.spec), FailedUpTo(nodes, jobs, |nodes|), n.name)
    ensures j < |nodes| && Blames(run.spec, n, Observed(nodes[j], jobs))
  {
    var spec, failed := run.spec, FailedUpTo(nodes, jobs, |nodes|);
    if spec.failurePolicy.ContinueIndependent? {
      var f :| f in failed && Reaches(Reverse(spec), f, n.name);
      j := FailedName(run, nodes, jobs, f);
      DescendantIffAncestor(spec, f, n.name);
    } else {
      var f :| f in failed;
      j := FailedName(run, nodes, jobs, f);
    }
  }

  /** And the other way round: a pending node that could blame a failed one is skipped. */
  lemma BlamesSkipped(run: Run, nodes: seq<NodeState>, jobs: Jobs, n: NodeState, j: nat)
    requires UniqueNames(nodes) && NodesInv(run, nodes, jobs) && GoodEdges(JobNames(run.spec.jobs), run.spec.edges)
    requires j < |nodes| && !run.spec.failurePolicy.BestEffort?
    requires Blames(run.spec, n, Observed(nodes[j], jobs))
    ensures SkippedBy(run.spec.failurePolicy, Reverse(run.spec), FailedUpTo(nodes, jobs, |nodes|), n.name)
  {
    FailedAreFound(run, nodes, jobs, j);
    DescendantIffAncestor(run.spec, nodes[j].name, n.name);
  }

  lemma PolicyKeeps(run: Run, nodes: seq<NodeState>, jobs: Jobs)
    requires RunInv(run, nodes, jobs)
    ensures RunInv(run, Settled(run, nodes, jobs), jobs) && Cleared(run.spec, Settled(run, nodes, jobs))
  {
    var seen, done := ObservedUpTo(nodes, jobs, |nodes|), Settled(run, nodes, jobs);
    ObservingKeeps(run, nodes, jobs, |nodes|);
    SettledShape(run, nodes, jobs);
    SkippingKeepsNodes(run, seen, done, jobs);
    SameNamesMatch(run.spec, nodes, done);
    PrecedenceKept(run.spec, seen, done);
    SettledCauses(run, nodes, jobs);
    SettledCleared(run, nodes, jobs);
  }

  lemma SkippingKeepsNodes(run: Run, seen: seq<NodeState>, done: seq<NodeState>, jobs: Jobs)
    requires NodesInv(run, seen, jobs) && |seen| == |done|
    requires forall i | 0 <= i < |seen| ::
               done[i] == seen[i] || (seen[i].phase.Pending? && done[i] == seen[i].(phase := Skipped))
    ensures NodesInv(run, done, jobs)
  {
    forall i | 0 <= i < |done| ensures NodeInv(run, done[i], jobs) { assert NodeInv(run, seen[i], jobs); }
  }

  /** The policy only turns pending nodes into skipped ones. */
  lemma SettledShape(run: Run, nodes: seq<NodeState>, jobs: Jobs)
    ensures var seen, done := ObservedUpTo(nodes, jobs, |nodes|), Settled(run, nodes, jobs);
            && SameNames(nodes, done) && SameNames(seen, done)
            && forall i | 0 <= i < |nodes| ::
                 done[i] == seen[i] || (seen[i].phase.Pending? && done[i] == seen[i].(phase := Skipped))
  {
  }

  lemma SettledCauses(run: Run, nodes: seq<NodeState>, jobs: Jobs)
    requires NodesInv(run, nodes, jobs) && GoodEdges(JobNames(run.spec.jobs), run.spec.edges)
    requires SkipCause(run.spec, ObservedUpTo(nodes, jobs, |nodes|))
    ensures SkipCause(run.spec, Settled(run, nodes, jobs))
  {
    var spec, seen, done := run.spec, ObservedUpTo(nodes, jobs, |nodes|), Settled(run, nodes, jobs);
    SettledShape(run, nodes, jobs);
    forall i | 0 <= i < |done| && done[i].phase.Skipped? ensures HasCause(spec, done, i) {
      if seen[i].phase.Skipped? {
        assert HasCause(spec, seen, i);
        var j :| 0 <= j < |seen| && Blames(spec, seen[i], seen[j]);
        assert Blames(spec, done[i], done[j]);
      } else {
        var j := SkippedBlames(run, nodes, jobs, done[i]);
        assert Blames(spec, done[i], done[j]);
      }
    }
  }

  lemma SettledCleared(run: Run, nodes: seq<NodeState>, jobs: Jobs)
    requires UniqueNames(nodes) && NodesInv(run, nodes, jobs) && GoodEdges(JobNames(run.spec.jobs), run.spec.edges)
    ensures Cleared(run.spec, Settled(run, nodes, jobs))
  {
    var spec, done := run.spec, Settled(run, nodes, jobs);
    SettledShape(run, nodes, jobs);
    forall i, j | 0 <= i < |done| && 0 <= j < |done| && done[i].phase.Pending? && !spec.failurePolicy.BestEffort?
      ensures !Blames(spec, done[i], done[j])
    {
      if Blames(spec, done[i], done[j]) { BlamesSkipped(run, nodes, jobs, done[i], j); }
    }
  }

  // ---- Scheduling ---------------------------------------------------------------------------

  /** A runnable node of a cleared list waits for nothing: under the policies that stop at a
      failure its dependencies succeeded, under BestEffort they succeeded or failed. */
  lemma RunnableDependencies(run: Run, nodes: seq<NodeState>, jobs: Jobs, i: nat, j: nat)
    requires RunInv(run, nodes, jobs) && Cleared(run.spec, nodes)
    requires i < |nodes| && CanRun(run.spec.failurePolicy, nodes, Deps(run.spec), nodes[i])
    requires j < |nodes| && Edge(Deps(run.spec), nodes[i].name, nodes[j].name)
    ensures nodes[j].phase.Succeeded? || (nodes[j].phase.Failed? && run.spec.failurePolicy.BestEffort?)
  {
    var spec := run.spec;
    assert Releases(spec.failurePolicy, nodes[j].phase);
    if nodes[j].phase.Skipped? {
      assert HasCause(spec, nodes, j);
      var k :| 0 <= k < |nodes| && Blames(spec, nodes[j], nodes[k]);
      EdgeReaches(Deps(spec), nodes[i].name, nodes[j].name);
      if spec.failurePolicy.ContinueIndependent? {
        ReachesTransitive(Deps(spec), nodes[i].name, nodes[j].name, nodes[k].name);
      }
      assert Blames(spec, nodes[i], nodes[k]);
    }
  }

  lemma {:induction false} RunnableName(policy: FailurePolicy, nodes: seq<NodeState>, deps: Graph, name: string)
    returns (i: nat)
    requires name in Runnable(policy, nodes, deps)
    ensures i < |nodes| && nodes[i].name == name && CanRun(policy, nodes, deps, nodes[i])
  {
    i :| 0 <= i < |nodes| && CanRun(policy, nodes, deps, nodes[i]) && nodes[i].name == name;
  }

  lemma RunnableMember(policy: FailurePolicy, nodes: seq<NodeState>, deps: Graph, i: nat)
    requires UniqueNames(nodes) && i < |nodes|
    ensures nodes[i].name in Runnable(policy, nodes, deps) <==> CanRun(policy, nodes, deps, nodes[i])
  {
    if nodes[i].name in Runnable(policy, nodes, deps) {
      var k := RunnableName(policy, nodes, deps, nodes[i].name);
      assert k == i;
    }
  }

  lemma StartingKeeps(run: Run, nodes: seq<NodeState>, jobs: Jobs, started: set<string>, created: seq<string>)
    requires RunInv(run, nodes, jobs) && Cleared(run.spec, nodes) && DistinctNames(run, NodeNames(nodes))
    requires started <= Runnable(run.spec.failurePolicy, nodes, Deps(run.spec))
    requires Elements(created) <= Runnable(run.spec.failurePolicy, nodes, Deps(run.spec))
    ensures RunInv(run, Started(run, nodes, started), JobsAfter(run, jobs, created))
    ensures RunInv(run, nodes, JobsAfter(run, jobs, created))
  {
    var spec, done, more := run.spec, Started(run, nodes, started), JobsAfter(run, jobs, created);
    SameNamesMatch(spec, nodes, done);
    OtherJobsKept(run, nodes, jobs, created);
    StartedPending(run, nodes, started);
    assert NodesInv(run, done, more);
    StartedPrecedence(run, nodes, jobs, started);
    CausesKept(spec, nodes, done);
  }

  /** Only pending nodes are started. */
  lemma StartedPending(run: Run, nodes: seq<NodeState>, started: set<string>)
    requires UniqueNames(nodes) && started <= Runnable(run.spec.failurePolicy, nodes, Deps(run.spec))
    ensures forall i | 0 <= i < |nodes| && nodes[i].name in started ::
            CanRun(run.spec.failurePolicy, nodes, Deps(run.spec), nodes[i])
  {
    forall i | 0 <= i < |nodes| && nodes[i].name in started
      ensures CanRun(run.spec.failurePolicy, nodes, Deps(run.spec), nodes[i])
    {
      var k := RunnableName(run.spec.failurePolicy, nodes, Deps(run.spec), nodes[i].name);
      assert k == i;
    }
  }

  /** A Job that appeared under the name of node `i` was made for node `i`. */
  lemma MadeForNode(run: Run, nodes: seq<NodeState>, jobs: Jobs, created: seq<string>, i: nat)
    requires UniqueNames(nodes) && DistinctNames(run, NodeNames(nodes)) && Elements(created) <= NodeNames(nodes)
    requires i < |nodes|
    requires run.nameOf(nodes[i].name) in JobsAfter(run, jobs, created) && run.nameOf(nodes[i].name) !in jobs
    ensures nodes[i].name in created
  {
    var key := run.nameOf(nodes[i].name);
    assert MadeFor(run, created, key, JobsAfter(run, jobs, created)[key]);
    var x :| x in created && key == run.nameOf(x);
    assert x in Elements(created);
    assert nodes[i].name in NodeNames(nodes);
  }

  lemma RunnableAreNodes(policy: FailurePolicy, nodes: seq<NodeState>, deps: Graph)
    ensures Runnable(policy, nodes, deps) <= NodeNames(nodes)
  {
  }

  lemma OtherJobsKept(run: Run, nodes: seq<NodeState>, jobs: Jobs, created: seq<string>)
    requires RunInv(run, nodes, jobs) && DistinctNames(run, NodeNames(nodes))
    requires Elements(created) <= Runnable(run.spec.failurePolicy, nodes, Deps(run.spec))
    ensures NodesInv(run, nodes, JobsAfter(run, jobs, created))
  {
    var more := JobsAfter(run, jobs, created);
    StartedPending(run, nodes, Elements(created));
    RunnableAreNodes(run.spec.failurePolicy, nodes, Deps(run.spec));
    forall i | 0 <= i < |nodes| ensures NodeInv(run, nodes[i], more) {
      var n := nodes[i];
      assert NodeInv(run, n, jobs);
      if n.jobName != "" && n.jobName in more && n.jobName !in jobs {
        MadeForNode(run, nodes, jobs, created, i);
        assert n.name in Elements(created);
      }
    }
  }

  lemma StartedPrecedence(run: Run, nodes: seq<NodeState>, jobs: Jobs, started: set<string>)
    requires RunInv(run, nodes, jobs) && Cleared(run.spec, nodes)
    requires started <= Runnable(run.spec.failurePolicy, nodes, Deps(run.spec))
    ensures Precedence(run.spec, Started(run, nodes, started))
  {
    var spec, done := run.spec, Started(run, nodes, started);
    StartedPending(run, nodes, started);
    forall i, j | 0 <= i < |done| && 0 <= j < |done| && done[i].jobName != ""
                  && Edge(Deps(spec), done[i].name, done[j].name)
      ensures done[j].phase.Succeeded? || done[j].phase.Failed?
    {
      if nodes[i].name in started {
        RunnableDependencies(run, nodes, jobs, i, j);
      }
      assert nodes[j].phase.Succeeded? || nodes[j].phase.Failed?;
      assert nodes[j].name !in started;
    }
  }

  // ---- The pass -----------------------------------------------------------------------------

  lemma PrefixElements(a: seq<string>, b: seq<string>)
    requires a <= b
    ensures Elements(a) <= Elements(b)
  {
    assert forall x | x in a :: x in b;
  }

  /** A pass keeps the invariant whatever calls fail and wherever it stops, for the state it
      leaves in memory and for the stored state if that is all that survives. */
  lemma PassKeeps(run: Run, nodes: seq<NodeState>, jobs: Jobs, faults: Faults)
    requires RunInv(run, nodes, jobs) && DistinctNames(run, NodeNames(nodes))
    ensures Ensured(run.spec.jobs, nodes) == nodes
    ensures var out := RunPass(run, nodes, jobs, faults);
            RunInv(run, out.nodes, out.jobs) && RunInv(run, nodes, out.jobs)
  {
    EnsuredNothing(run.spec.jobs, nodes);
    var k := FaultFrom(nodes, faults, 0);
    if k < |nodes| {
      ObservingKeeps(run, nodes, jobs, k);
    } else if Slots(run, nodes, jobs) <= 0 {
      PolicyKeeps(run, nodes, jobs);
    } else {
      SchedulingKeeps(run, nodes, jobs, Slots(run, nodes, jobs), faults);
    }
  }

  lemma SchedulingKeeps(run: Run, nodes: seq<NodeState>, jobs: Jobs, slots: nat, faults: Faults)
    requires RunInv(run, nodes, jobs) && DistinctNames(run, NodeNames(nodes))
    ensures var out := Scheduled(run, Settled(run, nodes, jobs), jobs, slots, faults);
            RunInv(run, out.nodes, out.jobs) && RunInv(run, nodes, out.jobs)
  {
    var settled := Settled(run, nodes, jobs);
    PolicyKeeps(run, nodes, jobs);
    var out := Scheduled(run, settled, jobs, slots, faults);
    PrefixElements(out.started, out.created);
    PrefixElements(out.created, Order(run, settled));
    StartingKeeps(run, settled, jobs, Elements(out.started), out.created);
    StoredKeeps(run, nodes, jobs, out.created);
  }

  /** The stored nodes still agree with the cluster after Jobs were created for runnable nodes. */
  lemma StoredKeeps(run: Run, nodes: seq<NodeState>, jobs: Jobs, created: seq<string>)
    requires RunInv(run, nodes, jobs) && DistinctNames(run, NodeNames(nodes))
    requires Elements(created) <= Runnable(run.spec.failurePolicy, Settled(run, nodes, jobs), Deps(run.spec))
    ensures RunInv(run, nodes, JobsAfter(run, jobs, created))
  {
    var more, settled := JobsAfter(run, jobs, created), Settled(run, nodes, jobs);
    SameNamesMatch(run.spec, nodes, settled);
    RunnableAreNodes(run.spec.failurePolicy, settled, Deps(run.spec));
    forall i | 0 <= i < |nodes| ensures NodeInv(run, nodes[i], more) {
      assert NodeInv(run, nodes[i], jobs);
      if nodes[i].name in created { CreatedHadNoJob(run, nodes, jobs, created, i); }
      StoredNodeKept(run, nodes, jobs, created, i);
    }
  }

  lemma CreatedHadNoJob(run: Run, nodes: seq<NodeState>, jobs: Jobs, created: seq<string>, i: nat)
    requires UniqueNames(nodes) && i < |nodes| && NodeInv(run, nodes[i], jobs) && nodes[i].name in created
    requires Elements(created) <= Runnable(run.spec.failurePolicy, Settled(run, nodes, jobs), Deps(run.spec))
    ensures nodes[i].jobName == ""
  {
    assert nodes[i].name in Elements(created);
    var k := RunnableName(run.spec.failurePolicy, Settled(run, nodes, jobs), Deps(run.spec), nodes[i].name);
    assert k == i;
    ObservedKeepsNode(run, nodes[i], jobs);
  }

  lemma StoredNodeKept(run: Run, nodes: seq<NodeState>, jobs: Jobs, created: seq<string>, i: nat)
    requires UniqueNames(nodes) && DistinctNames(run, NodeNames(nodes)) && Elements(created) <= NodeNames(nodes)
    requires i < |nodes| && NodeInv(run, nodes[i], jobs)
    requires nodes[i].name in created ==> nodes[i].jobName == ""
    ensures NodeInv(run, nodes[i], JobsAfter(run, jobs, created))
  {
    var n := nodes[i];
    if n.jobName != "" && n.jobName in JobsAfter(run, jobs, created) && n.jobName !in jobs {
      MadeForNode(run, nodes, jobs, created, i);
    }
  }
}
