/** Two histories of small workflows, from a certificate seen for the first time, in which the code
    does not do what its documentation says. */
module Witnesses {
  import opened StringOrder
  import opened DependencyGraph
  import opened JobSecurity
  import opened WorkflowSpec
  import opened Workflow
  import opened RunInvariant
  import opened Passes
  import opened Replay
  import opened Runs
  import Naming

  // ---- The workflows ------------------------------------------------------------------------

  /** Three node names in the order they are tried. */
  datatype Names = Names(a: string, b: string, c: string) {
    predicate Ordered() { Less(a, b) && Less(b, c) && Less(a, c) }
    function List(): seq<string> { [a, b, c] }
  }

  /** Three independent nodes, one slot, and the policy that promises independent branches go on. */
  ghost predicate Independent(spec: Spec, t: Names) {
    Accepted(spec) && Shaped(spec, t)
  }

  ghost predicate Shaped(spec: Spec, t: Names) {
    && spec.edges == [] && Parallelism(spec) == 1 && spec.failurePolicy.ContinueIndependent?
    && t.Ordered() && JobNames(spec.jobs) == Elements(t.List())
  }

  const EXAMPLE := Spec(
    [JobTemplate("a", {}, EMPTY_SPEC), JobTemplate("b", {}, EMPTY_SPEC), JobTemplate("c", {}, EMPTY_SPEC)],
    [], Some(1), None, ContinueIndependent)

  lemma NoEdges(spec: Spec, a: string, b: string)
    requires spec.edges == []
    ensures !Edge(Deps(spec), a, b) && !Reaches(Deps(spec), a, b) && !Reaches(Reverse(spec), a, b)
  {
    if Reaches(Deps(spec), a, b) { var c := LastEdge(Deps(spec), a, b); }
    if Reaches(Reverse(spec), a, b) { var c := LastEdge(Reverse(spec), a, b); }
  }

  lemma ExampleIsIndependent()
    ensures Independent(EXAMPLE, Names("a", "b", "c"))
  {
    forall a ensures !Reaches(Deps(EXAMPLE), a, a) { NoEdges(EXAMPLE, a, a); }
    var jobs := EXAMPLE.jobs;
    assert jobs[0].name == "a" && jobs[1].name == "b" && jobs[2].name == "c";
  }

  lemma DistinctList(t: Names)
    requires t.Ordered()
    ensures t.a != t.b && t.b != t.c && t.a != t.c && StrictlySorted(t.List())
    ensures Elements(t.List()) == {t.a, t.b, t.c}
  {
    LessTrichotomy(t.a, t.b);
    LessTrichotomy(t.b, t.c);
    LessTrichotomy(t.a, t.c);
  }

  lemma ListOrder(t: Names, names: set<string>)
    requires t.Ordered() && names == Elements(t.List())
    ensures InOrder(names) == t.List()
  {
    DistinctList(t);
    var r := InOrder(names);
    SortedUnique(r, t.List());
  }

  /** No node holds another back: a node is runnable exactly if it is pending. */
  lemma NothingHeldBack(run: Run, nodes: seq<NodeState>, jobs: Jobs, i: nat)
    requires run.spec.edges == [] && run.spec.failurePolicy.ContinueIndependent? && UniqueNames(nodes) && i < |nodes|
    ensures Settled(run, nodes, jobs)[i] == Observed(nodes[i], jobs)
    ensures nodes[i].name in Runnable(run.spec.failurePolicy, Settled(run, nodes, jobs), Deps(run.spec))
            <==> Observed(nodes[i], jobs).phase.Pending?
  {
    forall a, b ensures !Edge(Deps(run.spec), a, b) && !Reaches(Reverse(run.spec), a, b) { NoEdges(run.spec, a, b); }
    RunnableMember(run.spec.failurePolicy, Settled(run, nodes, jobs), Deps(run.spec), i);
  }

  // ---- The first pass -----------------------------------------------------------------------

  function NoneStarted(t: Names): seq<NodeState> {
    [NodeState(t.a, "", Pending), NodeState(t.b, "", Pending), NodeState(t.c, "", Pending)]
  }

  lemma InitialList(spec: Spec, t: Names)
    requires t.Ordered() && JobNames(spec.jobs) == Elements(t.List())
    ensures InitialNodes(spec) == NoneStarted(t)
  {
    ListOrder(t, JobNames(spec.jobs));
    NoneStartedYet(t, t.List(), InitialNodes(spec));
  }

  lemma NoneStartedYet(t: Names, list: seq<string>, nodes: seq<NodeState>)
    requires list == t.List() && |nodes| == |list|
    requires forall i | 0 <= i < |list| :: nodes[i] == NodeState(list[i], "", Pending)
    ensures nodes == NoneStarted(t)
  {
    assert nodes[0].name == t.a && nodes[1].name == t.b && nodes[2].name == t.c;
  }

  /** Untouched nodes of such a workflow are all runnable. */
  lemma AllRunnable(run: Run, nodes: seq<NodeState>)
    requires run.spec.edges == [] && run.spec.failurePolicy.ContinueIndependent? && UniqueNames(nodes)
    requires forall i | 0 <= i < |nodes| :: nodes[i].jobName == "" && nodes[i].phase.Pending?
    ensures Settled(run, nodes, map[]) == nodes
    ensures Runnable(run.spec.failurePolicy, nodes, Deps(run.spec)) == NodeNames(nodes)
  {
    forall i | 0 <= i < |nodes|
      ensures Settled(run, nodes, map[])[i] == nodes[i]
      ensures nodes[i].name in Runnable(run.spec.failurePolicy, Settled(run, nodes, map[]), Deps(run.spec))
    {
      NothingHeldBack(run, nodes, map[], i);
    }
    assert Settled(run, nodes, map[]) == nodes;
    RunnableAreNodes(run.spec.failurePolicy, nodes, Deps(run.spec));
  }

  /** The nodes once the first pass has started one. */
  function OneStarted(run: Run, t: Names): seq<NodeState> {
    [NodeState(t.a, run.nameOf(t.a), Running), NodeState(t.b, "", Pending), NodeState(t.c, "", Pending)]
  }

  lemma StartedUnique(run: Run, t: Names)
    requires t.Ordered()
    ensures UniqueNames(OneStarted(run, t)) && NodeNames(OneStarted(run, t)) == Elements(t.List())
  {
    DistinctList(t);
    var nodes := OneStarted(run, t);
    assert nodes[0].name == t.a && nodes[1].name == t.b && nodes[2].name == t.c;
  }

  lemma FirstOrder(run: Run, t: Names)
    requires Shaped(run.spec, t)
    ensures Settled(run, InitialNodes(run.spec), map[]) == InitialNodes(run.spec)
    ensures Order(run, InitialNodes(run.spec)) == t.List()
  {
    InitialNames(run.spec);
    AllRunnable(run, InitialNodes(run.spec));
    ListOrder(t, Runnable(run.spec.failurePolicy, InitialNodes(run.spec), Deps(run.spec)));
  }

  lemma AllSlots(run: Run, nodes: seq<NodeState>)
    ensures Slots(run, nodes, map[]) == Parallelism(run.spec)
  {
    assert ActiveUpTo(nodes, map[], |nodes|) == {};
  }

  lemma OnlyFirst(order: seq<string>, taken: seq<string>)
    requires taken <= order && |order| > 1 && |taken| <= 1 && (|taken| == 1 || taken == order)
    ensures taken == [order[0]] && Elements(taken) == {order[0]}
  {
  }

  lemma FirstCreated(run: Run, t: Names)
    requires Shaped(run.spec, t)
    ensures var out := NodePass(run, InitialNodes(run.spec), map[], NO_FAULTS);
            !out.err && out.created == [t.a] && out.nodes == Started(run, InitialNodes(run.spec), {t.a})
  {
    var nodes := InitialNodes(run.spec);
    FirstOrder(run, t);
    AllSlots(run, nodes);
    UndisturbedShape(run, nodes, map[]);
    CreatedShape(run, nodes, map[], NO_FAULTS);
    OnlyFirst(t.List(), NodePass(run, nodes, map[], NO_FAULTS).created);
  }

  lemma StartFirst(run: Run, t: Names, nodes: seq<NodeState>)
    requires t.Ordered()
    requires nodes == NoneStarted(t)
    ensures Started(run, nodes, {t.a}) == OneStarted(run, t)
  {
    DistinctList(t);
  }

  /** The first pass takes the one slot for `a`. */
  lemma FirstPass(run: Run, t: Names)
    requires Shaped(run.spec, t)
    ensures var out := NodePass(run, InitialNodes(run.spec), map[], NO_FAULTS);
            !out.err && out.nodes == OneStarted(run, t) && out.jobs == map[run.nameOf(t.a) := run.newJob(t.a)]
  {
    FirstCreated(run, t);
    CreatedShape(run, InitialNodes(run.spec), map[], NO_FAULTS);
    FirstJob(run, t.a);
    InitialList(run.spec, t);
    StartFirst(run, t, InitialNodes(run.spec));
  }

  lemma FirstJob(run: Run, n: string)
    ensures JobsAfter(run, map[], [n]) == map[run.nameOf(n) := run.newJob(n)]
  {
    assert [n][..0] == [];
  }

  // ---- The common beginning of the histories ------------------------------------------------

  ghost function RunIn(site: Site, spec: Spec, hash: string): Run {
    RunAt(site, spec, "tls", Naming.ShortHash(hash, Naming.SUFFIX))
  }

  function Pass(hash: string): Event {
    Reconciled("tls", Hashed(hash), NO_FAULTS, true)
  }

  function AtFirst(site: Site, spec: Spec): World {
    World(spec, ExecState(site.namespace, site.cert, "", "", "", Pending, []), map[])
  }

  /** The stored run after the first pass, with the Job of `a` as given. */
  ghost function WithJob(site: Site, spec: Spec, t: Names, hash: string, job: Job): World {
    var run := RunIn(site, spec, hash);
    var runID := Naming.ShortHash(hash, Naming.SUFFIX);
    World(spec, ExecState(site.namespace, site.cert, "tls", hash, runID, Running, OneStarted(run, t)),
          map[run.nameOf(t.a) := job])
  }

  ghost function AfterFirst(site: Site, spec: Spec, t: Names, hash: string): World {
    WithJob(site, spec, t, hash, RunIn(site, spec, hash).newJob(t.a))
  }

  ghost function AfterPass(site: Site, w: World, hash: string): World {
    World(w.spec, Result(site, w, Pass(hash)).state, Result(site, w, Pass(hash)).jobs)
  }

  lemma DerivedRunning(run: Run, t: Names)
    ensures Derived(OneStarted(run, t)).Running?
  {
    assert OneStarted(run, t)[0].phase == Running;
  }

  lemma FirstStep(site: Site, spec: Spec, t: Names, hash: string)
    requires Independent(spec, t)
    ensures Works(AtFirst(site, spec), Pass(hash))
    ensures AfterPass(site, AtFirst(site, spec), hash) == AfterFirst(site, spec, t, hash)
  {
    var w, e, run := AtFirst(site, spec), Pass(hash), RunIn(site, spec, hash);
    WorkResult(site, w, e);
    InitialNames(spec);
    EnsuredNothing(spec.jobs, InitialNodes(spec));
    FirstPass(run, t);
    DerivedRunning(run, t);
  }

  lemma LaterStep(site: Site, spec: Spec, t: Names, hash: string, job: Job)
    requires Independent(spec, t) && hash != ""
    ensures var w, run := WithJob(site, spec, t, hash, job), RunIn(site, spec, hash);
            && Works(w, Pass(hash)) && BegunState(w, Pass(hash)) == w.st
            && Result(site, w, Pass(hash)) == Concluded(w.st, NodePass(run, OneStarted(run, t), w.jobs, NO_FAULTS))
  {
    var w, run := WithJob(site, spec, t, hash, job), RunIn(site, spec, hash);
    StartedUnique(run, t);
    EnsuredNothing(spec.jobs, OneStarted(run, t));
    WorkResult(site, w, Pass(hash));
  }

  /** Different nodes get different Job names in this run. */
  ghost predicate NoClash(site: Site, spec: Spec, hash: string) {
    DistinctNames(RunIn(site, spec, hash), JobNames(spec.jobs))
  }

  lemma PassStep(site: Site, w: World, hash: string)
    requires NoClash(site, w.spec, hash) && Works(w, Pass(hash))
    requires BegunState(w, Pass(hash)).runID == Naming.ShortHash(hash, Naming.SUFFIX)
    ensures Next(site, w, Pass(hash), AfterPass(site, w, hash)) && Unambiguous(site, w, Pass(hash))
  {
    WorkResult(site, w, Pass(hash));
  }

  /** The first pass as a step. */
  lemma Begin(site: Site, spec: Spec, t: Names, hash: string)
    requires Independent(spec, t) && NoClash(site, spec, hash)
    ensures Next(site, AtFirst(site, spec), Pass(hash), AfterFirst(site, spec, t, hash))
    ensures Unambiguous(site, AtFirst(site, spec), Pass(hash))
  {
    FirstStep(site, spec, t, hash);
    PassStep(site, AtFirst(site, spec), hash);
  }

  // ---- More nodes run than the limit --------------------------------------------------------

  lemma IdleTakesNoSlot(run: Run, t: Names, jobs: Jobs)
    requires Shaped(run.spec, t) && run.nameOf(t.a) != "" && run.nameOf(t.a) in jobs
    requires IsIdle(jobs[run.nameOf(t.a)])
    ensures |RunningSet(NodePass(run, OneStarted(run, t), jobs, NO_FAULTS).nodes)| > Parallelism(run.spec)
  {
    var nodes := OneStarted(run, t);
    StartedUnique(run, t);
    UndisturbedShape(run, nodes, jobs);
    NothingHeldBack(run, nodes, jobs, 1);
    NoRoom(run, nodes, jobs, t.b);
    LimitKeptIff(run, nodes, jobs, NO_FAULTS);
  }

  lemma NoRoom(run: Run, nodes: seq<NodeState>, jobs: Jobs, n: string)
    requires nodes != [] && RunsIdle(nodes[0], jobs) && Slots(run, nodes, jobs) <= 1
    requires n in Runnable(run.spec.failurePolicy, Settled(run, nodes, jobs), Deps(run.spec))
    ensures !HasRoom(run, nodes, jobs)
  {
    assert 0 in IdleSet(nodes, jobs);
    SubsetCount({0}, IdleSet(nodes, jobs));
    SubsetCount({n}, Runnable(run.spec.failurePolicy, Settled(run, nodes, jobs), Deps(run.spec)));
  }

  /** The parallelism limit is exceeded in two passes without any fault: the first starts `a`, and
      the second, which the creation of that Job triggers, finds it without active pods and starts
      another node. */
  lemma LimitIsExceeded(site: Site, spec: Spec, t: Names, hash: string) returns (ws: seq<World>, es: seq<Event>)
    requires Independent(spec, t) && hash != "" && NoClash(site, spec, hash)
    ensures es == [Pass(hash), Pass(hash)] && IsTrace(site, ws, es) && NoCollisions(site, ws, es)
    ensures Fresh(ws[0].st) && ws[0].spec == ws[2].spec == spec
    ensures |RunningSet(ws[2].st.nodes)| > Parallelism(spec)
  {
    var w := AfterFirst(site, spec, t, hash);
    Begin(site, spec, t, hash);
    SecondPass(site, spec, t, hash);
    ws, es := TwoSteps(site, AtFirst(site, spec), Pass(hash), w, Pass(hash), AfterPass(site, w, hash));
  }

  lemma SecondPass(site: Site, spec: Spec, t: Names, hash: string)
    requires Independent(spec, t) && hash != "" && NoClash(site, spec, hash)
    ensures var w := AfterFirst(site, spec, t, hash);
            && Next(site, w, Pass(hash), AfterPass(site, w, hash)) && Unambiguous(site, w, Pass(hash))
            && |RunningSet(AfterPass(site, w, hash).st.nodes)| > Parallelism(spec)
  {
    var run, w := RunIn(site, spec, hash), AfterFirst(site, spec, t, hash);
    LaterStep(site, spec, t, hash, run.newJob(t.a));
    PassStep(site, w, hash);
    IdleTakesNoSlot(run, t, w.jobs);
  }

  // ---- An independent branch is stopped -----------------------------------------------------

  lemma OneIsLeft(run: Run, t: Names, jobs: Jobs)
    requires Shaped(run.spec, t) && run.nameOf(t.a) != "" && run.nameOf(t.a) in jobs
    requires IsBroken(jobs[run.nameOf(t.a)])
    ensures var out := NodePass(run, OneStarted(run, t), jobs, NO_FAULTS);
            !out.err && Any(out.nodes, Failed) && Any(out.nodes, Pending)
  {
    var nodes := OneStarted(run, t);
    StartedUnique(run, t);
    UndisturbedShape(run, nodes, jobs);
    PassSchedules(run, nodes, jobs, NO_FAULTS);
    FailureSettled(run, t, jobs);
    var settled := Settled(run, nodes, jobs);
    TwoForOneSlot(Order(run, settled), Slots(run, nodes, jobs), settled, NodePass(run, nodes, jobs, NO_FAULTS));
  }

  lemma FailureSettled(run: Run, t: Names, jobs: Jobs)
    requires Shaped(run.spec, t) && run.nameOf(t.a) != "" && run.nameOf(t.a) in jobs
    requires IsBroken(jobs[run.nameOf(t.a)])
    ensures var settled := Settled(run, OneStarted(run, t), jobs);
            settled[0].phase.Failed? && settled[1].phase.Pending? && settled[2].phase.Pending?
  {
    StartedUnique(run, t);
    NothingHeldBack(run, OneStarted(run, t), jobs, 0);
    NothingHeldBack(run, OneStarted(run, t), jobs, 1);
    NothingHeldBack(run, OneStarted(run, t), jobs, 2);
  }

  lemma TwoForOneSlot(order: seq<string>, slots: int, settled: seq<NodeState>, out: PassOut)
    requires Schedules(order, slots, settled, out) && slots <= 1 && |settled| == 3 && settled[1].name != settled[2].name
    requires settled[0].phase.Failed? && settled[1].phase.Pending? && settled[2].phase.Pending?
    ensures Any(out.nodes, Failed) && Any(out.nodes, Pending)
  {
    assert out.nodes[0].phase == Failed;
    assert settled[1].name !in out.started || settled[2].name !in out.started;
    assert out.nodes[1].phase == Pending || out.nodes[2].phase == Pending;
  }

  /** The stored run after the first pass, when the Job of `a` has failed. */
  ghost function JobFailed(site: Site, spec: Spec, t: Names, hash: string): World {
    WithJob(site, spec, t, hash, RunIn(site, spec, hash).newJob(t.a).(failed := true))
  }

  lemma JobFails(site: Site, spec: Spec, t: Names, hash: string)
    ensures Next(site, AfterFirst(site, spec, t, hash), ClusterMoves, JobFailed(site, spec, t, hash))
  {
    var a, b := AfterFirst(site, spec, t, hash), JobFailed(site, spec, t, hash);
    assert forall i | 0 <= i < |a.st.nodes| && a.st.nodes[i].jobName != "" :: a.st.nodes[i].jobName in b.jobs;
  }

  lemma FailureSeen(site: Site, spec: Spec, t: Names, hash: string)
    requires Independent(spec, t) && hash != "" && NoClash(site, spec, hash)
    ensures var w := JobFailed(site, spec, t, hash);
            && Next(site, w, Pass(hash), AfterPass(site, w, hash)) && Unambiguous(site, w, Pass(hash))
            && AfterPass(site, w, hash).st.phase.Failed? && Any(AfterPass(site, w, hash).st.nodes, Pending)
  {
    var run, w := RunIn(site, spec, hash), JobFailed(site, spec, t, hash);
    LaterStep(site, spec, t, hash, run.newJob(t.a).(failed := true));
    PassStep(site, w, hash);
    OneIsLeft(run, t, w.jobs);
    LeavesPending(w.st, NodePass(run, OneStarted(run, t), w.jobs, NO_FAULTS));
  }

  lemma LeavesPending(begun: ExecState, out: PassOut)
    requires !out.err && Any(out.nodes, Failed) && Any(out.nodes, Pending)
    ensures Concluded(begun, out).state.phase.Failed? && Any(Concluded(begun, out).state.nodes, Pending)
  {
  }

  lemma BeginAndFail(site: Site, spec: Spec, t: Names, hash: string) returns (ws: seq<World>, es: seq<Event>)
    requires Independent(spec, t) && NoClash(site, spec, hash)
    ensures es == [Pass(hash), ClusterMoves] && IsTrace(site, ws, es) && NoCollisions(site, ws, es)
    ensures ws[0] == AtFirst(site, spec) && ws[2] == JobFailed(site, spec, t, hash)
  {
    Begin(site, spec, t, hash);
    JobFails(site, spec, t, hash);
    ws, es := TwoSteps(site, AtFirst(site, spec), Pass(hash), AfterFirst(site, spec, t, hash), ClusterMoves,
                       JobFailed(site, spec, t, hash));
  }

  /** Node `a` runs and fails; the others are independent of it and wait for the one slot. The pass
      that sees the failure ends the workflow as Failed with one of them still pending. */
  lemma IndependentBranchIsStopped(site: Site, spec: Spec, t: Names, hash: string)
    returns (ws: seq<World>, es: seq<Event>)
    requires Independent(spec, t) && hash != "" && NoClash(site, spec, hash)
    ensures es == [Pass(hash), ClusterMoves, Pass(hash)] && IsTrace(site, ws, es) && NoCollisions(site, ws, es)
    ensures Fresh(ws[0].st) && ws[0].spec == ws[3].spec == spec
    ensures ws[3].st.phase.Failed? && Any(ws[3].st.nodes, Pending)
  {
    ws, es := BeginAndFail(site, spec, t, hash);
    FailureSeen(site, spec, t, hash);
    ws, es := ThreeSteps(site, ws, es, Pass(hash), AfterPass(site, ws[2], hash));
  }
}
