/** What one reconcile pass over one certificate does, as functions on values. The methods of
    `Engine` are proved to compute these, and `Runs` reasons about sequences of them. */
module Workflow {
  import opened StringOrder
  import opened DependencyGraph
  import opened JobSecurity
  import opened WorkflowSpec
  import Naming

  // ---- Data ---------------------------------------------------------------------------------

  /** `Unset` stands for the empty or an unknown phase, which the API does not store. */
  datatype Phase = Unset | Pending | Running | Succeeded | Failed | Skipped

  predicate IsTerminal(p: Phase) {
    p.Succeeded? || p.Failed? || p.Skipped?
  }

  datatype NodeState = NodeState(name: string, jobName: string, phase: Phase)

  /** A Job in the cluster: whether it has a true Complete or Failed condition, and active pods. */
  datatype Job = Job(spec: JobSpec, complete: bool, failed: bool, active: int)

  datatype Outcome = Completed | Broken | Busy | Idle

  /** The order of the checks decides a Job that reports both conditions. */
  function OutcomeOf(j: Job): Outcome {
    if j.complete then Completed else if j.failed then Broken else if j.active > 0 then Busy else Idle
  }

  type Jobs = map<string, Job>

  /** One CertificateJob: its name and spec, with the hash and lower-casing of the platform. */
  datatype Context = Context(hash: string -> string, lower: char -> char, cjob: string, spec: Spec)

  function Parallelism(spec: Spec): int {
    if spec.parallelism.None? || spec.parallelism.value < 1 then 1 else spec.parallelism.value
  }

  function TTL(spec: Spec): int {
    if spec.jobTTL.None? then 3600 else spec.jobTTL.value
  }

  /** One run of the workflow for one certificate: what the Job of a node is called, and the Job
      created for it. */
  datatype Run = Run(spec: Spec, nameOf: string -> string, newJob: string -> Job)

  function Namer(ctx: Context, cert: string, runID: string): string -> string {
    (node: string) => Naming.JobName(ctx.hash, ctx.lower, ctx.cjob, cert, node, runID)
  }

  /** The hardened template with the Secret mounted. */
  function NewJob(spec: Spec, secretName: string, node: string): Job {
    var t := TemplateOf(spec.jobs, node);
    var labelled := t.(podLabels := t.podLabels + RESERVED_LABELS);
    Job(Injected(Defaulted(labelled, TTL(spec)), secretName), false, false, 0)
  }

  function Maker(spec: Spec, secretName: string): string -> Job {
    (node: string) => NewJob(spec, secretName, node)
  }

  function RunOf(ctx: Context, cert: string, secretName: string, runID: string): Run {
    Run(ctx.spec, Namer(ctx, cert, runID), Maker(ctx.spec, secretName))
  }

  /** The template stored last under a name; a node without one gets the empty template. */
  function TemplateOf(jobs: seq<JobTemplate>, node: string): JobSpec {
    if jobs == [] then EMPTY_SPEC
    else if jobs[|jobs| - 1].name == node then jobs[|jobs| - 1].template
    else TemplateOf(jobs[..|jobs| - 1], node)
  }

  /** Which API calls of one pass fail. A pass reads the Job of a node once when it observes and
      once when it schedules, and creates it at most once, so the node names the call. In `lost`
      the Job is created but the call reports an error. */
  datatype Faults = Faults(observe: set<string>, lookup: set<string>, refused: set<string>, lost: set<string>)

  const NO_FAULTS := Faults({}, {}, {}, {})

  ghost predicate UniqueNames(nodes: seq<NodeState>) {
    forall i, j | 0 <= i < j < |nodes| :: nodes[i].name != nodes[j].name
  }

  ghost function NodeNames(nodes: seq<NodeState>): set<string> {
    set i | 0 <= i < |nodes| :: nodes[i].name
  }

  /** Same list of nodes, with other phases and Jobs. */
  ghost predicate SameNames(a: seq<NodeState>, b: seq<NodeState>) {
    |a| == |b| && forall i | 0 <= i < |a| :: a[i].name == b[i].name
  }

  // ---- The stages of a pass -----------------------------------------------------------------

  /** `ensureWorkflowNodeStates`: a Pending node for every template that has none. */
  ghost function Ensured(jobs: seq<JobTemplate>, nodes: seq<NodeState>): seq<NodeState> {
    if jobs == [] then nodes
    else
      var rest := Ensured(jobs[..|jobs| - 1], nodes);
      var name := jobs[|jobs| - 1].name;
      if name in NodeNames(nodes) then rest else rest + [NodeState(name, "", Pending)]
  }

  /** One node after its Job was read. */
  function Observed(n: NodeState, jobs: Jobs): NodeState {
    if n.jobName == "" then n
    else if n.jobName !in jobs then n.(phase := Failed)
    else
      match OutcomeOf(jobs[n.jobName])
      case Completed => n.(phase := Succeeded)
      case Broken => n.(phase := Failed)
      case Busy => n.(phase := Running)
      case Idle => if n.phase.Pending? then n.(phase := Running) else n
  }

  /** The node takes one of the parallel slots. */
  predicate TakesSlot(n: NodeState, jobs: Jobs) {
    && n.jobName != "" && n.jobName in jobs
    && (OutcomeOf(jobs[n.jobName]).Busy? || (OutcomeOf(jobs[n.jobName]).Idle? && n.phase.Pending?))
  }

  /** The node is reported to the failure policy. */
  predicate FoundFailed(n: NodeState, jobs: Jobs) {
    n.jobName != "" && (n.jobName !in jobs || OutcomeOf(jobs[n.jobName]).Broken?)
  }

  ghost function ObservedUpTo(nodes: seq<NodeState>, jobs: Jobs, k: nat): (r: seq<NodeState>)
    ensures SameNames(nodes, r)
  {
    seq(|nodes|, i requires 0 <= i < |nodes| => if i < k then Observed(nodes[i], jobs) else nodes[i])
  }

  ghost function ActiveUpTo(nodes: seq<NodeState>, jobs: Jobs, k: nat): set<int>
    requires k <= |nodes|
  {
    set i | 0 <= i < k && TakesSlot(nodes[i], jobs)
  }

  ghost function FailedUpTo(nodes: seq<NodeState>, jobs: Jobs, k: nat): set<string>
    requires k <= |nodes|
  {
    set i | 0 <= i < k && FoundFailed(nodes[i], jobs) :: nodes[i].name
  }

  predicate Unreadable(n: NodeState, faults: Faults) {
    n.jobName != "" && n.name in faults.observe
  }

  /** The first node at or after `k` whose Job cannot be read, or the length of the list. */
  ghost function FaultFrom(nodes: seq<NodeState>, faults: Faults, k: nat): (r: nat)
    requires k <= |nodes|
    ensures k <= r <= |nodes|
    ensures forall i | k <= i < r :: !Unreadable(nodes[i], faults)
    ensures r < |nodes| ==> Unreadable(nodes[r], faults)
    decreases |nodes| - k
  {
    if k == |nodes| || Unreadable(nodes[k], faults) then k else FaultFrom(nodes, faults, k + 1)
  }

  /** Whether the failure policy skips a pending node of this name. */
  ghost predicate SkippedBy(policy: FailurePolicy, reverse: Graph, failed: set<string>, name: string) {
    match policy
    case BestEffort => false
    case ContinueIndependent => ReachedFrom(reverse, failed, name)
    case _ => failed != {}
  }

  /** `applyFailurePolicy`. */
  ghost function AfterPolicy(nodes: seq<NodeState>, policy: FailurePolicy, reverse: Graph,
                             failed: set<string>): (r: seq<NodeState>)
    ensures SameNames(nodes, r)
  {
    seq(|nodes|, i requires 0 <= i < |nodes| =>
      if nodes[i].phase.Pending? && SkippedBy(policy, reverse, failed, nodes[i].name)
      then nodes[i].(phase := Skipped) else nodes[i])
  }

  /** A dependency in this phase does not hold a node back. */
  predicate Releases(policy: FailurePolicy, p: Phase) {
    p.Succeeded? || p.Skipped? || (p.Failed? && policy.BestEffort?)
  }

  ghost predicate CanRun(policy: FailurePolicy, nodes: seq<NodeState>, deps: Graph, n: NodeState) {
    n.phase.Pending? && forall j | 0 <= j < |nodes| && Edge(deps, n.name, nodes[j].name) ::
      Releases(policy, nodes[j].phase)
  }

  /** `runnableNodes`, as a set. */
  ghost function Runnable(policy: FailurePolicy, nodes: seq<NodeState>, deps: Graph): set<string> {
    set i | 0 <= i < |nodes| && CanRun(policy, nodes, deps, nodes[i]) :: nodes[i].name
  }

  /** The nodes in `names` are given their Job name and set Running. */
  ghost function Started(run: Run, nodes: seq<NodeState>, names: set<string>): (r: seq<NodeState>)
    ensures SameNames(nodes, r)
  {
    seq(|nodes|, i requires 0 <= i < |nodes| =>
      if nodes[i].name in names then NodeState(nodes[i].name, run.nameOf(nodes[i].name), Running) else nodes[i])
  }

  /** The cluster after a Job was looked up, and created if missing, for each of `names`. */
  ghost function JobsAfter(run: Run, jobs: Jobs, names: seq<string>): (r: Jobs)
    ensures jobs.Keys <= r.Keys
    ensures forall k | k in jobs :: r[k] == jobs[k]
    ensures forall n | n in names :: run.nameOf(n) in r
    ensures forall k | k in r && k !in jobs :: MadeFor(run, names, k, r[k])
  {
    if names == [] then jobs
    else
      var last := names[|names| - 1];
      var before := JobsAfter(run, jobs, names[..|names| - 1]);
      if run.nameOf(last) in before then before else before[run.nameOf(last) := run.newJob(last)]
  }

  /** `job` is the new Job of one of `names`, stored under its name. */
  ghost predicate MadeFor(run: Run, names: seq<string>, key: string, job: Job) {
    exists n :: n in names && key == run.nameOf(n) && job == run.newJob(n)
  }

  /** The scheduling loop cannot get past the k-th runnable node. */
  ghost predicate StopsAt(run: Run, jobs: Jobs, order: seq<string>, faults: Faults, k: nat)
    requires k < |order|
  {
    || order[k] in faults.lookup
    || (run.nameOf(order[k]) !in JobsAfter(run, jobs, order[..k]) && order[k] in faults.refused + faults.lost)
  }

  /** How many runnable nodes are started, counting from `k`. */
  ghost function StartedCount(run: Run, jobs: Jobs, order: seq<string>, slots: nat, faults: Faults, k: nat): (r: nat)
    requires k <= |order| && k <= slots
    ensures k <= r <= |order| && r <= slots
    ensures forall i | k <= i < r :: !StopsAt(run, jobs, order, faults, i)
    ensures r < |order| && r < slots ==> StopsAt(run, jobs, order, faults, r)
    decreases |order| - k
  {
    if k == |order| || k == slots || StopsAt(run, jobs, order, faults, k) then k
    else StartedCount(run, jobs, order, slots, faults, k + 1)
  }

  /** The Job of the k-th runnable node is created although the call fails. */
  ghost predicate LostAt(run: Run, jobs: Jobs, order: seq<string>, faults: Faults, k: nat)
    requires k < |order|
  {
    && order[k] !in faults.lookup && order[k] in faults.lost
    && run.nameOf(order[k]) !in JobsAfter(run, jobs, order[..k])
  }

  /** `created` lists the nodes whose Job was looked up and, if missing, created; `started` those
      recorded as Running. They differ by the node whose creation succeeded but reported an error. */
  datatype PassOut = PassOut(nodes: seq<NodeState>, jobs: Jobs, err: bool, started: seq<string>, created: seq<string>)

  /** The runnable nodes in the order they are tried. */
  ghost function Order(run: Run, nodes: seq<NodeState>): seq<string> {
    InOrder(Runnable(run.spec.failurePolicy, nodes, Deps(run.spec)))
  }

  /** The scheduling loop over the nodes of `order`. */
  ghost function Attempt(run: Run, nodes: seq<NodeState>, jobs: Jobs, order: seq<string>, slots: nat,
                         faults: Faults): (out: PassOut)
    ensures out.nodes == Started(run, nodes, Elements(out.started))
    ensures out.jobs == JobsAfter(run, jobs, out.created)
    ensures out.started <= out.created <= order
    ensures |out.started| <= |out.created| <= slots
    ensures !out.err ==> out.created == out.started && (|out.started| == slots || out.started == order)
    ensures out.err ==> |out.started| < |order| && StopsAt(run, jobs, order, faults, |out.started|)
  {
    var n := StartedCount(run, jobs, order, slots, faults, 0);
    var stopped := n < |order| && n < slots;
    var made := if stopped && LostAt(run, jobs, order, faults, n) then n + 1 else n;
    assert order[..made][..n] == order[..n];
    PassOut(Started(run, nodes, Elements(order[..n])), JobsAfter(run, jobs, order[..made]), stopped, order[..n],
            order[..made])
  }

  /** `scheduleRunnableNodes`. */
  ghost function Scheduled(run: Run, nodes: seq<NodeState>, jobs: Jobs, slots: nat, faults: Faults): PassOut {
    Attempt(run, nodes, jobs, Order(run, nodes), slots, faults)
  }

  /** The nodes when scheduling begins: every Job was read and the failure policy applied. */
  ghost function Settled(run: Run, nodes: seq<NodeState>, jobs: Jobs): (r: seq<NodeState>)
    ensures SameNames(nodes, r)
  {
    var spec := run.spec;
    AfterPolicy(ObservedUpTo(nodes, jobs, |nodes|), spec.failurePolicy, Reverse(spec), FailedUpTo(nodes, jobs, |nodes|))
  }

  ghost function Slots(run: Run, nodes: seq<NodeState>, jobs: Jobs): int {
    Parallelism(run.spec) - |ActiveUpTo(nodes, jobs, |nodes|)|
  }

  /** `reconcileCertificateRun`, without the phase: nodes and cluster, also on an error exit. */
  ghost function RunPass(run: Run, stored: seq<NodeState>, jobs: Jobs, faults: Faults): PassOut {
    NodePass(run, Ensured(run.spec.jobs, stored), jobs, faults)
  }

  /** The pass once every template has a node. */
  ghost function NodePass(run: Run, nodes: seq<NodeState>, jobs: Jobs, faults: Faults): (out: PassOut)
    ensures SameNames(nodes, out.nodes)
  {
    var k := FaultFrom(nodes, faults, 0);
    if k < |nodes| then PassOut(ObservedUpTo(nodes, jobs, k), jobs, true, [], [])
    else
      var slots := Slots(run, nodes, jobs);
      if slots <= 0 then PassOut(Settled(run, nodes, jobs), jobs, false, [], [])
      else Scheduled(run, Settled(run, nodes, jobs), jobs, slots, faults)
  }

  ghost predicate Any(nodes: seq<NodeState>, p: Phase) {
    exists i :: 0 <= i < |nodes| && nodes[i].phase == p
  }

  /** `deriveWorkflowPhase`. */
  ghost function Derived(nodes: seq<NodeState>): Phase {
    if Any(nodes, Failed) then Failed
    else if Any(nodes, Running) then Running
    else if Any(nodes, Pending) || Any(nodes, Unset) then Pending
    else Succeeded
  }

  // ---- One certificate ----------------------------------------------------------------------

  /** What the pass can learn about the input: the Secret is unreadable, the hash cannot be
      computed, or the hash. */
  datatype Input = NoSecret | NoHash | Hashed(hash: string)

  datatype Certificate = Certificate(namespace: string, name: string, secretName: string)

  /** A `CertificateExecutionState`, without messages and times. */
  datatype ExecState = ExecState(
    namespace: string,
    name: string,
    secretName: string,
    inputHash: string,
    runID: string,
    phase: Phase,
    nodes: seq<NodeState>)

  datatype Progress = Progress(needsRequeue: bool, anyFailed: bool, anyInProgress: bool)
  {
    function Merge(other: Progress): Progress {
      Progress(needsRequeue || other.needsRequeue, anyFailed || other.anyFailed, anyInProgress || other.anyInProgress)
    }
  }

  const NOTHING := Progress(false, false, false)
  const WAITING := Progress(true, false, true)

  /** `initializeNodeStates`: one Pending node for each template, by name. */
  ghost function InitialNodes(spec: Spec): (r: seq<NodeState>)
    ensures forall i | 0 <= i < |r| :: r[i].phase.Pending? && r[i].jobName == ""
  {
    var names := InOrder(JobNames(spec.jobs));
    seq(|names|, i requires 0 <= i < |names| => NodeState(names[i], "", Pending))
  }

  /** A new run begins: nothing was started yet, or a finished run sees another input. */
  predicate Starts(st: ExecState, hash: string) {
    st.inputHash == "" || (st.inputHash != hash && IsTerminal(st.phase))
  }

  /** `applyInputHashTransition`. */
  ghost function AfterHash(spec: Spec, secretName: string, st: ExecState, hash: string): ExecState {
    if Starts(st, hash) then
      st.(secretName := secretName, inputHash := hash, runID := Naming.ShortHash(hash, Naming.SUFFIX),
          phase := Pending, nodes := InitialNodes(spec))
    else st
  }

  datatype CertOut = CertOut(state: ExecState, jobs: Jobs, progress: Progress)

  /** `reconcileObservedCertificate`. */
  ghost function CertPass(ctx: Context, cert: Certificate, input: Input, st: ExecState, jobs: Jobs,
                          faults: Faults): CertOut {
    if cert.secretName == "" then
      CertOut(st.(secretName := "", phase := Failed), jobs, Progress(false, true, false))
    else if !input.Hashed? then
      if IsTerminal(st.phase) then CertOut(st, jobs, NOTHING)
      else CertOut(st.(secretName := cert.secretName, phase := Pending), jobs, WAITING)
    else
      var begun := AfterHash(ctx.spec, cert.secretName, st, input.hash);
      if IsTerminal(begun.phase) then CertOut(begun, jobs, Progress(false, begun.phase.Failed?, false))
      else
        Concluded(begun, RunPass(RunOf(ctx, cert.name, cert.secretName, begun.runID), begun.nodes, jobs, faults))
  }

  /** The state and report after the workflow pass: an error keeps the nodes and waits. */
  ghost function Concluded(begun: ExecState, out: PassOut): CertOut {
    if out.err then CertOut(begun.(phase := Pending, nodes := out.nodes), out.jobs, WAITING)
    else
      var phase := Derived(out.nodes);
      CertOut(begun.(phase := phase, nodes := out.nodes), out.jobs,
              Progress(phase.Running? || phase.Pending?, phase.Failed?, phase.Running? || phase.Pending?))
  }
}
