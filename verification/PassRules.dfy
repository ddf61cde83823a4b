/** One pass told in the terms of its documentation: fields of the spec, listed edges, phases, and
    the conditions and active pods of Jobs. None of the functions that compute a pass is used to say
    what it must do. */
module PassRules {
  import opened StringOrder
  import opened DependencyGraph
  import opened WorkflowSpec
  import opened Workflow
  import opened RunInvariant
  import opened Passes

  // ---- Reading the Jobs ---------------------------------------------------------------------

  /** What the Job of one node says about it. A Job that reports both conditions is complete. */
  lemma JobDecides(n: NodeState, jobs: Jobs)
    ensures n.jobName == "" ==> Observed(n, jobs) == n && !TakesSlot(n, jobs) && !FoundFailed(n, jobs)
    ensures n.jobName != "" && n.jobName !in jobs ==>
              Observed(n, jobs) == n.(phase := Failed) && !TakesSlot(n, jobs) && FoundFailed(n, jobs)
    ensures n.jobName != "" && n.jobName in jobs ==>
              var j := jobs[n.jobName];
              && (j.complete ==> Observed(n, jobs) == n.(phase := Succeeded))
              && (!j.complete && j.failed ==> Observed(n, jobs) == n.(phase := Failed))
              && (!j.complete && !j.failed && (j.active > 0 || n.phase.Pending?) ==>
                    Observed(n, jobs) == n.(phase := Running))
              && (!j.complete && !j.failed && j.active <= 0 && !n.phase.Pending? ==> Observed(n, jobs) == n)
              && (TakesSlot(n, jobs) <==> !j.complete && !j.failed && (j.active > 0 || n.phase.Pending?))
              && (FoundFailed(n, jobs) <==> !j.complete && j.failed)
  {
  }

  /** The Job of the node is lost or has failed. */
  predicate IsLost(n: NodeState, jobs: Jobs) {
    n.jobName != "" && (n.jobName in jobs ==> IsBroken(jobs[n.jobName]))
  }

  /** A failure holds back a node of this name. */
  ghost predicate HeldBack(spec: Spec, nodes: seq<NodeState>, jobs: Jobs, name: string) {
    && !spec.failurePolicy.BestEffort?
    && exists j :: 0 <= j < |nodes| && IsLost(nodes[j], jobs)
                   && (spec.failurePolicy.ContinueIndependent? ==> Reaches(Deps(spec), name, nodes[j].name))
  }

  /** After reading, exactly the pending nodes that a failure holds back are skipped. */
  lemma PolicyDecides(run: Run, nodes: seq<NodeState>, jobs: Jobs, i: nat)
    requires GoodEdges(JobNames(run.spec.jobs), run.spec.edges) && i < |nodes|
    ensures var read := Observed(nodes[i], jobs);
            var skips := read.phase.Pending? && HeldBack(run.spec, nodes, jobs, nodes[i].name);
            Settled(run, nodes, jobs)[i] == if skips then read.(phase := Skipped) else read
  {
    var name, failed := nodes[i].name, FailedUpTo(nodes, jobs, |nodes|);
    assert ObservedUpTo(nodes, jobs, |nodes|)[i] == Observed(nodes[i], jobs);
    HeldBackIff(run.spec, nodes, jobs, name);
  }

  lemma HeldBackIff(spec: Spec, nodes: seq<NodeState>, jobs: Jobs, name: string)
    requires GoodEdges(JobNames(spec.jobs), spec.edges)
    ensures SkippedBy(spec.failurePolicy, Reverse(spec), FailedUpTo(nodes, jobs, |nodes|), name)
            <==> HeldBack(spec, nodes, jobs, name)
  {
    var failed := FailedUpTo(nodes, jobs, |nodes|);
    forall j | 0 <= j < |nodes| ensures IsLost(nodes[j], jobs) <==> FoundFailed(nodes[j], jobs) {}
    forall f ensures Reaches(Reverse(spec), f, name) <==> Reaches(Deps(spec), name, f) {
      DescendantIffAncestor(spec, f, name);
    }
    if HeldBack(spec, nodes, jobs, name) {
      var j :| 0 <= j < |nodes| && IsLost(nodes[j], jobs)
               && (spec.failurePolicy.ContinueIndependent? ==> Reaches(Deps(spec), name, nodes[j].name));
      assert nodes[j].name in failed;
    }
    if SkippedBy(spec.failurePolicy, Reverse(spec), failed, name) {
      var f :| f in failed && (spec.failurePolicy.ContinueIndependent? ==> Reaches(Reverse(spec), f, name));
      var j :| 0 <= j < |nodes| && FoundFailed(nodes[j], jobs) && nodes[j].name == f;
    }
  }

  // ---- Who is started -----------------------------------------------------------------------

  /** The declared parallelism, and one if none or less is declared. */
  function Limit(spec: Spec): int {
    if spec.parallelism.Some? && spec.parallelism.value > 1 then spec.parallelism.value else 1
  }

  /** The node's unfinished Job has an active pod, or was not recorded yet. */
  predicate AtWork(n: NodeState, jobs: Jobs) {
    && n.jobName != "" && n.jobName in jobs
    && !jobs[n.jobName].complete && !jobs[n.jobName].failed && (jobs[n.jobName].active > 0 || n.phase.Pending?)
  }

  ghost function AtWorkSet(nodes: seq<NodeState>, jobs: Jobs): set<int> {
    set i | 0 <= i < |nodes| && AtWork(nodes[i], jobs)
  }

  /** How many nodes may be started. */
  ghost function Room(spec: Spec, nodes: seq<NodeState>, jobs: Jobs): int {
    Limit(spec) - |AtWorkSet(nodes, jobs)|
  }

  lemma RoomIsSlots(run: Run, nodes: seq<NodeState>, jobs: Jobs)
    ensures AtWorkSet(nodes, jobs) == ActiveUpTo(nodes, jobs, |nodes|)
    ensures Room(run.spec, nodes, jobs) == Slots(run, nodes, jobs) && Limit(run.spec) == Parallelism(run.spec)
  {
    forall i | 0 <= i < |nodes| ensures AtWork(nodes[i], jobs) <==> TakesSlot(nodes[i], jobs) {}
  }

  /** A dependency in this phase is done with. */
  predicate IsMet(policy: FailurePolicy, p: Phase) {
    p == Succeeded || p == Skipped || (policy == BestEffort && p == Failed)
  }

  /** A pending node all of whose listed dependencies are done with. */
  ghost predicate Ready(spec: Spec, nodes: seq<NodeState>, i: int) {
    && 0 <= i < |nodes| && nodes[i].phase.Pending?
    && forall j | 0 <= j < |nodes| && WorkflowEdge(nodes[j].name, nodes[i].name) in spec.edges ::
         IsMet(spec.failurePolicy, nodes[j].phase)
  }

  /** The ready nodes that come first by name. */
  ghost function ReadyBefore(spec: Spec, nodes: seq<NodeState>, i: nat): set<int>
    requires i < |nodes|
  {
    set j | 0 <= j < |nodes| && Ready(spec, nodes, j) && Less(nodes[j].name, nodes[i].name)
  }

  /** The node is ready and its turn comes while there is room. */
  ghost predicate Chosen(spec: Spec, nodes: seq<NodeState>, room: int, i: nat)
    requires i < |nodes|
  {
    Ready(spec, nodes, i) && |ReadyBefore(spec, nodes, i)| < room
  }

  lemma ReadyIsRunnable(spec: Spec, nodes: seq<NodeState>, i: nat)
    requires GoodEdges(JobNames(spec.jobs), spec.edges) && UniqueNames(nodes) && i < |nodes|
    ensures Ready(spec, nodes, i) <==> nodes[i].name in Runnable(spec.failurePolicy, nodes, Deps(spec))
  {
    RunnableMember(spec.failurePolicy, nodes, Deps(spec), i);
    forall j | 0 <= j < |nodes|
      ensures Edge(Deps(spec), nodes[i].name, nodes[j].name)
              <==> WorkflowEdge(nodes[j].name, nodes[i].name) in spec.edges
      ensures Releases(spec.failurePolicy, nodes[j].phase) <==> IsMet(spec.failurePolicy, nodes[j].phase)
    {
      ExactTranspose(spec, nodes[j].name, nodes[i].name);
    }
  }

  /** The place of a ready node in the order is the number of ready nodes before it. */
  lemma PlaceInOrder(spec: Spec, nodes: seq<NodeState>, order: seq<string>, i: nat, p: nat)
    requires GoodEdges(JobNames(spec.jobs), spec.edges) && UniqueNames(nodes) && i < |nodes|
    requires StrictlySorted(order) && Elements(order) == Runnable(spec.failurePolicy, nodes, Deps(spec))
    requires p < |order| && order[p] == nodes[i].name
    ensures |ReadyBefore(spec, nodes, i)| == p
  {
    forall j | 0 <= j < |nodes| ensures j in ReadyBefore(spec, nodes, i) <==> nodes[j].name in order[..p] {
      ReadyBeforeIff(spec, nodes, order, j, p);
    }
    assert ReadyBefore(spec, nodes, i) == StartedAt(nodes, order[..p]);
    RunnableAreNodes(spec.failurePolicy, nodes, Deps(spec));
    StartedAtCount(nodes, order, order[..p]);
  }

  lemma ReadyBeforeIff(spec: Spec, nodes: seq<NodeState>, order: seq<string>, j: nat, p: nat)
    requires GoodEdges(JobNames(spec.jobs), spec.edges) && UniqueNames(nodes) && j < |nodes|
    requires StrictlySorted(order) && Elements(order) == Runnable(spec.failurePolicy, nodes, Deps(spec)) && p < |order|
    ensures nodes[j].name in order[..p] <==> Ready(spec, nodes, j) && Less(nodes[j].name, order[p])
  {
    ReadyIsRunnable(spec, nodes, j);
    BeforeInOrder(order, p, nodes[j].name);
  }

  lemma BeforeInOrder(order: seq<string>, p: nat, x: string)
    requires StrictlySorted(order) && p < |order|
    ensures x in order[..p] <==> x in Elements(order) && Less(x, order[p])
  {
    if x in order {
      var q :| 0 <= q < |order| && order[q] == x;
      LessTrichotomy(x, order[p]);
      if q < p { assert order[..p][q] == x; }
    }
  }

  lemma TakenFirst(order: seq<string>, taken: seq<string>, slots: int, p: nat)
    requires StrictlySorted(order) && taken <= order && p < |order|
    requires |taken| <= (if slots > 0 then slots else 0) && (slots > 0 ==> |taken| == slots || taken == order)
    ensures order[p] in taken <==> p < slots
  {
    StrictlySortedNoDuplicates(order);
    if p < |taken| { assert taken[p] == order[p]; }
  }

  /** A pass without error starts a node if and only if it is ready and fewer ready nodes than there
      is room for have a smaller name; it is then recorded as running with its own Job, which exists.
      Every other node stays as reading and policy left it. */
  lemma StartedIff(run: Run, nodes: seq<NodeState>, jobs: Jobs, faults: Faults, i: nat)
    requires GoodEdges(JobNames(run.spec.jobs), run.spec.edges) && UniqueNames(nodes) && i < |nodes|
    requires !NodePass(run, nodes, jobs, faults).err
    ensures var out, settled := NodePass(run, nodes, jobs, faults), Settled(run, nodes, jobs);
            var name := run.nameOf(nodes[i].name);
            if Chosen(run.spec, settled, Room(run.spec, nodes, jobs), i)
            then out.nodes[i] == NodeState(nodes[i].name, name, Running) && name in out.jobs
            else out.nodes[i] == settled[i]
  {
    var out, settled := NodePass(run, nodes, jobs, faults), Settled(run, nodes, jobs);
    PassSchedules(run, nodes, jobs, faults);
    RoomIsSlots(run, nodes, jobs);
    ChosenIffStarted(run, nodes, jobs, settled, out, i);
    StartedRecord(run, nodes, jobs, faults, i);
  }

  lemma ChosenIffStarted(run: Run, nodes: seq<NodeState>, jobs: Jobs, settled: seq<NodeState>, out: PassOut, i: nat)
    requires GoodEdges(JobNames(run.spec.jobs), run.spec.edges) && UniqueNames(settled) && i < |settled| && !out.err
    requires Schedules(Order(run, settled), Slots(run, nodes, jobs), settled, out)
    ensures settled[i].name in out.started <==> Chosen(run.spec, settled, Slots(run, nodes, jobs), i)
  {
    var order := Order(run, settled);
    ReadyIsRunnable(run.spec, settled, i);
    PrefixElements(out.started, order);
    if Ready(run.spec, settled, i) {
      assert settled[i].name in Elements(order);
      var p :| 0 <= p < |order| && order[p] == settled[i].name;
      PlaceInOrder(run.spec, settled, order, i, p);
      TakenFirst(order, out.started, Slots(run, nodes, jobs), p);
    }
  }

  lemma StartedRecord(run: Run, nodes: seq<NodeState>, jobs: Jobs, faults: Faults, i: nat)
    requires UniqueNames(nodes) && i < |nodes| && !NodePass(run, nodes, jobs, faults).err
    ensures var out, name := NodePass(run, nodes, jobs, faults), run.nameOf(nodes[i].name);
            nodes[i].name in out.started ==> out.nodes[i] == NodeState(nodes[i].name, name, Running) && name in out.jobs
  {
    var settled := Settled(run, nodes, jobs);
    if Slots(run, nodes, jobs) > 0 {
      var out := Attempt(run, settled, jobs, Order(run, settled), Slots(run, nodes, jobs), faults);
      assert NodePass(run, nodes, jobs, faults) == out;
      assert nodes[i].name in out.started <==> nodes[i].name in Elements(out.started);
    }
  }

  // ---- Where a pass stops -------------------------------------------------------------------

  /** A Job that cannot be read ends the pass: the nodes listed before it were read, nothing else was
      changed and nothing created. */
  lemma ReadErrorStops(run: Run, nodes: seq<NodeState>, jobs: Jobs, faults: Faults, p: nat)
    requires p < |nodes| && nodes[p].jobName != "" && nodes[p].name in faults.observe
    requires forall i | 0 <= i < p && nodes[i].jobName != "" :: nodes[i].name !in faults.observe
    ensures var out := NodePass(run, nodes, jobs, faults);
            && out.err && out.jobs == jobs
            && forall i | 0 <= i < |nodes| :: out.nodes[i] == if i < p then Observed(nodes[i], jobs) else nodes[i]
  {
    assert FaultFrom(nodes, faults, 0) == p;
  }

  /** A failing call while scheduling ends the pass at a node whose turn had come: exactly the ready
      nodes before it by name are started. */
  lemma ScheduleErrorStops(run: Run, nodes: seq<NodeState>, jobs: Jobs, faults: Faults) returns (p: nat)
    requires GoodEdges(JobNames(run.spec.jobs), run.spec.edges) && UniqueNames(nodes)
    requires forall i | 0 <= i < |nodes| && nodes[i].jobName != "" :: nodes[i].name !in faults.observe
    requires NodePass(run, nodes, jobs, faults).err
    ensures p < |nodes| && Chosen(run.spec, Settled(run, nodes, jobs), Room(run.spec, nodes, jobs), p)
    ensures nodes[p].name in faults.lookup
            || (nodes[p].name in faults.refused + faults.lost && run.nameOf(nodes[p].name) !in jobs)
    ensures var out, settled := NodePass(run, nodes, jobs, faults), Settled(run, nodes, jobs);
            forall i | 0 <= i < |nodes| ::
              out.nodes[i] == if Ready(run.spec, settled, i) && Less(nodes[i].name, nodes[p].name)
                              then NodeState(nodes[i].name, run.nameOf(nodes[i].name), Running) else settled[i]
  {
    var settled := Settled(run, nodes, jobs);
    var order, m := StoppedAttempt(run, nodes, jobs, faults);
    RunnableNames(run, nodes, jobs);
    assert order[m] in Elements(order);
    p := Position(nodes, order[m]);
    RoomIsSlots(run, nodes, jobs);
    ReadyIsRunnable(run.spec, settled, p);
    PlaceInOrder(run.spec, settled, order, p, m);
    forall i | 0 <= i < |nodes|
      ensures nodes[i].name in order[..m] <==> Ready(run.spec, settled, i) && Less(nodes[i].name, nodes[p].name)
    {
      ReadyBeforeIff(run.spec, settled, order, i, m);
    }
  }

  /** The scheduling loop that ended in an error after `m` nodes. */
  lemma StoppedAttempt(run: Run, nodes: seq<NodeState>, jobs: Jobs, faults: Faults) returns (order: seq<string>, m: nat)
    requires forall i | 0 <= i < |nodes| && nodes[i].jobName != "" :: nodes[i].name !in faults.observe
    requires NodePass(run, nodes, jobs, faults).err
    ensures order == Order(run, Settled(run, nodes, jobs)) && m < |order| && m < Slots(run, nodes, jobs)
    ensures order[m] in faults.lookup || (order[m] in faults.refused + faults.lost && run.nameOf(order[m]) !in jobs)
    ensures var out, settled := NodePass(run, nodes, jobs, faults), Settled(run, nodes, jobs);
            forall i | 0 <= i < |nodes| ::
              out.nodes[i] == if nodes[i].name in order[..m]
                              then NodeState(nodes[i].name, run.nameOf(nodes[i].name), Running) else settled[i]
  {
    var settled := Settled(run, nodes, jobs);
    assert FaultFrom(nodes, faults, 0) == |nodes|;
    order := Order(run, settled);
    var out := Attempt(run, settled, jobs, order, Slots(run, nodes, jobs), faults);
    assert NodePass(run, nodes, jobs, faults) == out;
    m := |out.started|;
    assert out.started == order[..m];
  }

  // ---- How many run -------------------------------------------------------------------------

  ghost function ReadySet(spec: Spec, nodes: seq<NodeState>): set<int> {
    set i | 0 <= i < |nodes| && Ready(spec, nodes, i)
  }

  lemma ReadyCount(spec: Spec, nodes: seq<NodeState>)
    requires GoodEdges(JobNames(spec.jobs), spec.edges) && UniqueNames(nodes)
    ensures |ReadySet(spec, nodes)| == |Runnable(spec.failurePolicy, nodes, Deps(spec))|
  {
    var order := InOrder(Runnable(spec.failurePolicy, nodes, Deps(spec)));
    forall i | 0 <= i < |nodes| ensures i in ReadySet(spec, nodes) <==> nodes[i].name in Elements(order) {
      ReadyIsRunnable(spec, nodes, i);
    }
    assert ReadySet(spec, nodes) == StartedAt(nodes, order);
    RunnableAreNodes(spec.failurePolicy, nodes, Deps(spec));
    StartedAtCount(nodes, order, order);
  }

  /** Exactly when a pass without error keeps to the declared parallelism: the nodes at work are
      within it, and no running node has an unfinished Job without active pods, or these and all
      ready nodes fit what is left. */
  lemma DeclaredLimitKeptIff(run: Run, nodes: seq<NodeState>, jobs: Jobs, faults: Faults)
    requires GoodEdges(JobNames(run.spec.jobs), run.spec.edges) && UniqueNames(nodes)
    requires !NodePass(run, nodes, jobs, faults).err
    ensures var idle, room := |IdleSet(nodes, jobs)|, Room(run.spec, nodes, jobs);
            |RunningSet(NodePass(run, nodes, jobs, faults).nodes)| <= Limit(run.spec)
            <==> room >= 0 && (idle == 0 || idle + |ReadySet(run.spec, Settled(run, nodes, jobs))| <= room)
  {
    PassSchedules(run, nodes, jobs, faults);
    RoomIsSlots(run, nodes, jobs);
    ReadyCount(run.spec, Settled(run, nodes, jobs));
    LimitKeptIff(run, nodes, jobs, faults);
  }
}
