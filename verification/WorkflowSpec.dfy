/** The CertificateJob spec and the dependency graph built from it. */
module WorkflowSpec {
  import opened StringOrder
  import opened DependencyGraph
  import opened JobSecurity

  /** `Unspecified` is the empty string, which the code treats as its default; the API admits no
      other value than these four. */
  datatype FailurePolicy = Unspecified | StopDownstream | ContinueIndependent | BestEffort

  /** Of label maps only the keys matter to the checks. */
  datatype JobTemplate = JobTemplate(name: string, labels: set<string>, template: JobSpec)

  datatype WorkflowEdge = WorkflowEdge(from: string, to: string)

  datatype Spec = Spec(
    jobs: seq<JobTemplate>,
    edges: seq<WorkflowEdge>,
    parallelism: Option<int>,
    jobTTL: Option<int>,
    failurePolicy: FailurePolicy)

  const RESERVED_LABELS: set<string> := {
    "app.kubernetes.io/managed-by",
    "certificates.rezzell.com/certificatejob",
    "certificates.rezzell.com/certificate",
    "certificates.rezzell.com/certificate-namespace",
    "certificates.rezzell.com/workflow-node",
    "certificates.rezzell.com/run-id"
  }

  ghost function JobNames(jobs: seq<JobTemplate>): set<string> {
    set i | 0 <= i < |jobs| :: jobs[i].name
  }

  ghost predicate GoodTemplate(job: JobTemplate) {
    && job.name != "" && job.labels !! RESERVED_LABELS && job.template.podLabels !! RESERVED_LABELS
    && Permitted(job.template)
  }

  ghost predicate GoodJobs(jobs: seq<JobTemplate>) {
    && (forall i | 0 <= i < |jobs| :: GoodTemplate(jobs[i]))
    && (forall i, j | 0 <= i < j < |jobs| :: jobs[i].name != jobs[j].name)
  }

  ghost predicate GoodEdge(names: set<string>, e: WorkflowEdge) {
    e.from in names && e.to in names && e.from != e.to
  }

  ghost predicate GoodEdges(names: set<string>, edges: seq<WorkflowEdge>) {
    forall i | 0 <= i < |edges| :: GoodEdge(names, edges[i])
  }

  /** The dependencies of `to`, in the order the edges are listed. */
  ghost function SourcesOf(edges: seq<WorkflowEdge>, to: string): seq<string> {
    if edges == [] then []
    else
      var e := edges[|edges| - 1];
      SourcesOf(edges[..|edges| - 1], to) + if e.to == to then [e.from] else []
  }

  /** The dependents of `from`, in the order the edges are listed. */
  ghost function TargetsOf(edges: seq<WorkflowEdge>, from: string): seq<string> {
    if edges == [] then []
    else
      var e := edges[|edges| - 1];
      TargetsOf(edges[..|edges| - 1], from) + if e.from == from then [e.to] else []
  }

  ghost function DepsAmong(names: set<string>, edges: seq<WorkflowEdge>): Graph {
    map n | n in names :: SourcesOf(edges, n)
  }

  ghost function ReverseAmong(names: set<string>, edges: seq<WorkflowEdge>): Graph {
    map n | n in names :: TargetsOf(edges, n)
  }

  ghost function Deps(spec: Spec): Graph {
    DepsAmong(JobNames(spec.jobs), spec.edges)
  }

  ghost function Reverse(spec: Spec): Graph {
    ReverseAmong(JobNames(spec.jobs), spec.edges)
  }

  /** A spec the controller will run: the templates are well named and permitted, the edges join
      two different templates, and nothing waits for itself. */
  ghost predicate Accepted(spec: Spec) {
    && spec.jobs != []
    && GoodJobs(spec.jobs)
    && GoodEdges(JobNames(spec.jobs), spec.edges)
    && Acyclic(Deps(spec))
  }

  datatype SpecError =
    | NoJobs
    | EmptyName
    | DuplicateName(name: string)
    | ReservedLabel(name: string)
    | ReservedPodLabel(name: string)
    | Insecure(name: string, violation: SecurityError)
    | UnknownNode(edge: WorkflowEdge)
    | SelfDependency(edge: WorkflowEdge)
    | CyclicWorkflow

  datatype GraphResult = Built(deps: Graph, reverse: Graph) | Rejected(error: SpecError)

  /** The error names the first fault: everything before it is in order. */
  ghost predicate FirstFault(spec: Spec, e: SpecError) {
    match e
    case NoJobs => spec.jobs == []
    case CyclicWorkflow =>
      GoodJobs(spec.jobs) && GoodEdges(JobNames(spec.jobs), spec.edges) && !Acyclic(Deps(spec))
    case UnknownNode(_) => exists k :: FaultyEdge(spec, k, e)
    case SelfDependency(_) => exists k :: FaultyEdge(spec, k, e)
    case _ => exists k :: FaultyJob(spec, k, e)
  }

  ghost predicate FaultyEdge(spec: Spec, k: int, e: SpecError) {
    var names := JobNames(spec.jobs);
    && 0 <= k < |spec.edges|
    && GoodJobs(spec.jobs) && GoodEdges(names, spec.edges[..k])
    && match e
       case UnknownNode(edge) => edge == spec.edges[k] && (edge.from !in names || edge.to !in names)
       case SelfDependency(edge) => edge == spec.edges[k] && edge.from in names && edge.from == edge.to
       case _ => false
  }

  ghost predicate FaultyJob(spec: Spec, k: int, e: SpecError) {
    && 0 <= k < |spec.jobs|
    && GoodJobs(spec.jobs[..k])
    && var job := spec.jobs[k];
       match e
       case EmptyName => job.name == ""
       case DuplicateName(n) => job.name == n && n in JobNames(spec.jobs[..k])
       case ReservedLabel(n) => job.name == n && !(job.labels !! RESERVED_LABELS)
       case ReservedPodLabel(n) => job.name == n && !(job.template.podLabels !! RESERVED_LABELS)
       case Insecure(n, v) => job.name == n && Violates(job.template, v)
       case _ => false
  }

  /** `ValidateReservedLabels`: the keys are walked in any order. */
  method ValidateReservedLabels(labels: set<string>) returns (ok: bool)
    ensures ok <==> labels !! RESERVED_LABELS
  {
    var rest := labels;
    while rest != {}
      invariant rest <= labels && (labels - rest) !! RESERVED_LABELS
      decreases rest
    {
      var key :| key in rest;
      if key in RESERVED_LABELS { return false; }
      rest := rest - {key};
    }
    return true;
  }

  /** The first loop of `buildWorkflowGraph`. */
  method CheckJobs(spec: Spec) returns (names: set<string>, err: Option<SpecError>)
    ensures err.None? ==> names == JobNames(spec.jobs) && GoodJobs(spec.jobs)
    ensures err.Some? ==> !GoodJobs(spec.jobs) && exists k :: FaultyJob(spec, k, err.value)
    ensures err.Some? ==>
              && !err.value.NoJobs? && !err.value.CyclicWorkflow? && !err.value.UnknownNode?
              && !err.value.SelfDependency?
  {
    names := {};
    err := None;
    var jobs := spec.jobs;
    for i := 0 to |jobs|
      invariant names == JobNames(jobs[..i]) && GoodJobs(jobs[..i]) && err.None?
    {
      var job := jobs[i];
      err := CheckTemplate(job, names);
      if err.Some? {
        assert FaultyJob(spec, i, err.value);
        assert !GoodJobs(jobs) by {
          if err.value.DuplicateName? {
            var k :| 0 <= k < i && jobs[..i][k].name == job.name;
          } else {
            assert !GoodTemplate(jobs[i]);
          }
        }
        return;
      }
      names := names + {job.name};
      AppendJob(jobs, i);
    }
    assert jobs[..|jobs|] == jobs;
  }

  lemma AppendJob(jobs: seq<JobTemplate>, i: nat)
    requires i < |jobs| && GoodJobs(jobs[..i]) && GoodTemplate(jobs[i]) && jobs[i].name !in JobNames(jobs[..i])
    ensures GoodJobs(jobs[..i + 1]) && JobNames(jobs[..i + 1]) == JobNames(jobs[..i]) + {jobs[i].name}
  {
    var more := jobs[..i + 1];
    assert more == jobs[..i] + [jobs[i]];
    forall k | 0 <= k < i ensures more[k].name != jobs[i].name { assert jobs[..i][k].name in JobNames(jobs[..i]); }
    forall n | n in JobNames(jobs[..i]) ensures n in JobNames(more) {
      var k :| 0 <= k < i && jobs[..i][k].name == n;
      assert more[k].name == n;
    }
    assert more[i].name in JobNames(more);
  }

  method CheckTemplate(job: JobTemplate, names: set<string>) returns (err: Option<SpecError>)
    ensures err.None? <==> GoodTemplate(job) && job.name !in names
    ensures err.Some? ==>
              match err.value
              case EmptyName => job.name == ""
              case DuplicateName(n) => job.name == n && n in names
              case ReservedLabel(n) => job.name == n && !(job.labels !! RESERVED_LABELS)
              case ReservedPodLabel(n) => job.name == n && !(job.template.podLabels !! RESERVED_LABELS)
              case Insecure(n, v) => job.name == n && Violates(job.template, v)
              case _ => false
  {
    if job.name == "" { return Some(EmptyName); }
    if job.name in names { return Some(DuplicateName(job.name)); }
    var ok := ValidateReservedLabels(job.labels);
    if !ok { return Some(ReservedLabel(job.name)); }
    ok := ValidateReservedLabels(job.template.podLabels);
    if !ok { return Some(ReservedPodLabel(job.name)); }
    var violation := ValidateJobTemplateSecurity(job.template);
    if violation.Some? { return Some(Insecure(job.name, violation.value)); }
    return None;
  }

  /** The second loop of `buildWorkflowGraph`: each edge is stored from both ends. */
  method LinkEdges(spec: Spec, names: set<string>) returns (deps: Graph, reverse: Graph, err: Option<SpecError>)
    requires names == JobNames(spec.jobs) && GoodJobs(spec.jobs)
    ensures err.None? ==> GoodEdges(names, spec.edges) && deps == Deps(spec) && reverse == Reverse(spec)
    ensures err.Some? ==> !GoodEdges(names, spec.edges) && exists k :: FaultyEdge(spec, k, err.value)
    ensures err.Some? ==> err.value.UnknownNode? || err.value.SelfDependency?
  {
    var k: nat;
    k, deps, reverse := LinkGoodEdges(spec.edges, names);
    assert spec.edges[..|spec.edges|] == spec.edges;
    if k == |spec.edges| { return deps, reverse, None; }
    var edge := spec.edges[k];
    err := Some(if edge.from !in names || edge.to !in names then UnknownNode(edge) else SelfDependency(edge));
    assert FaultyEdge(spec, k, err.value);
  }

  /** Links edges up to the first faulty one. */
  method LinkGoodEdges(edges: seq<WorkflowEdge>, names: set<string>) returns (k: nat, deps: Graph, reverse: Graph)
    ensures k <= |edges| && GoodEdges(names, edges[..k])
    ensures k < |edges| ==> !GoodEdge(names, edges[k])
    ensures deps == DepsAmong(names, edges[..k]) && reverse == ReverseAmong(names, edges[..k])
  {
    deps := map n | n in names :: [];
    reverse := map n | n in names :: [];
    k := 0;
    while k < |edges|
      invariant k <= |edges| && GoodEdges(names, edges[..k])
      invariant deps == DepsAmong(names, edges[..k]) && reverse == ReverseAmong(names, edges[..k])
    {
      var edge := edges[k];
      if edge.from !in names || edge.to !in names { return; }
      if edge.from == edge.to { return; }
      LinkNext(names, edges, k);
      deps := deps[edge.to := deps[edge.to] + [edge.from]];
      reverse := reverse[edge.from := reverse[edge.from] + [edge.to]];
      k := k + 1;
    }
  }

  lemma LinkNext(names: set<string>, edges: seq<WorkflowEdge>, k: nat)
    requires k < |edges| && GoodEdges(names, edges[..k]) && GoodEdge(names, edges[k])
    ensures GoodEdges(names, edges[..k + 1])
    ensures var deps, e := DepsAmong(names, edges[..k]), edges[k];
            DepsAmong(names, edges[..k + 1]) == deps[e.to := deps[e.to] + [e.from]]
    ensures var reverse, e := ReverseAmong(names, edges[..k]), edges[k];
            ReverseAmong(names, edges[..k + 1]) == reverse[e.from := reverse[e.from] + [e.to]]
  {
    assert edges[..k + 1] == edges[..k] + [edges[k]];
    LinkOne(names, edges[..k], edges[k]);
  }

  lemma LinkOne(names: set<string>, edges: seq<WorkflowEdge>, e: WorkflowEdge)
    requires e.from in names && e.to in names
    ensures var deps := DepsAmong(names, edges);
            DepsAmong(names, edges + [e]) == deps[e.to := deps[e.to] + [e.from]]
    ensures var reverse := ReverseAmong(names, edges);
            ReverseAmong(names, edges + [e]) == reverse[e.from := reverse[e.from] + [e.to]]
  {
    var all := edges + [e];
    assert all[..|all| - 1] == edges && all[|all| - 1] == e;
    forall n ensures e.to != n ==> SourcesOf(all, n) == SourcesOf(edges, n) {}
    forall n ensures e.from != n ==> TargetsOf(all, n) == TargetsOf(edges, n) {}
    var deps, reverse := DepsAmong(names, edges), ReverseAmong(names, edges);
    assert DepsAmong(names, all) == deps[e.to := deps[e.to] + [e.from]];
    assert ReverseAmong(names, all) == reverse[e.from := reverse[e.from] + [e.to]];
  }

  /** `buildWorkflowGraph`: builds both directions of the graph exactly when the spec is accepted,
      and otherwise names the first thing wrong with it. */
  method BuildWorkflowGraph(spec: Spec) returns (r: GraphResult)
    ensures r.Built? <==> Accepted(spec)
    ensures r.Built? ==> r.deps == Deps(spec) && r.reverse == Reverse(spec)
    ensures r.Rejected? ==> FirstFault(spec, r.error)
  {
    if |spec.jobs| == 0 { return Rejected(NoJobs); }
    var names, err := CheckJobs(spec);
    if err.Some? { return Rejected(err.value); }
    var deps, reverse;
    deps, reverse, err := LinkEdges(spec, names);
    if err.Some? { return Rejected(err.value); }
    var acyclic := ValidateAcyclic(deps);
    DepsClosed(spec);
    if !acyclic { return Rejected(CyclicWorkflow); }
    return Built(deps, reverse);
  }

  // ---- The two directions agree -------------------------------------------------------------

  lemma {:induction false} SourcesCounted(edges: seq<WorkflowEdge>, f: string, t: string)
    ensures multiset(SourcesOf(edges, t))[f] == multiset(edges)[WorkflowEdge(f, t)]
  {
    if edges != [] {
      var front, e := edges[..|edges| - 1], edges[|edges| - 1];
      SourcesCounted(front, f, t);
      assert edges == front + [e];
      var s := SourcesOf(front, t);
      if e.to == t {
        assert SourcesOf(edges, t) == s + [e.from];
        assert multiset(s + [e.from])[f] == multiset(s)[f] + if e.from == f then 1 else 0;
      } else {
        assert SourcesOf(edges, t) == s;
      }
    }
  }

  lemma {:induction false} TargetsCounted(edges: seq<WorkflowEdge>, f: string, t: string)
    ensures multiset(TargetsOf(edges, f))[t] == multiset(edges)[WorkflowEdge(f, t)]
  {
    if edges != [] {
      var front, e := edges[..|edges| - 1], edges[|edges| - 1];
      TargetsCounted(front, f, t);
      assert edges == front + [e];
      var s := TargetsOf(front, f);
      if e.from == f {
        assert TargetsOf(edges, f) == s + [e.to];
        assert multiset(s + [e.to])[t] == multiset(s)[t] + if e.to == t then 1 else 0;
      } else {
        assert TargetsOf(edges, f) == s;
      }
    }
  }

  /** An edge listed k times is stored k times from either end. */
  lemma ExactTranspose(spec: Spec, f: string, t: string)
    requires GoodEdges(JobNames(spec.jobs), spec.edges)
    ensures EdgeCount(Deps(spec), t, f) == multiset(spec.edges)[WorkflowEdge(f, t)]
    ensures EdgeCount(Reverse(spec), f, t) == multiset(spec.edges)[WorkflowEdge(f, t)]
    ensures Edge(Deps(spec), t, f) <==> WorkflowEdge(f, t) in spec.edges
    ensures Edge(Reverse(spec), f, t) <==> WorkflowEdge(f, t) in spec.edges
  {
    SourcesCounted(spec.edges, f, t);
    TargetsCounted(spec.edges, f, t);
    EdgeIsCounted(Deps(spec), t, f);
    EdgeIsCounted(Reverse(spec), f, t);
    var e := WorkflowEdge(f, t);
    if e in spec.edges {
      var k :| 0 <= k < |spec.edges| && spec.edges[k] == e;
    }
  }

  lemma DepsClosed(spec: Spec)
    requires GoodEdges(JobNames(spec.jobs), spec.edges)
    ensures Closed(Deps(spec))
    ensures forall a, b | Edge(Reverse(spec), a, b) :: b in JobNames(spec.jobs)
  {
    forall a, b | Edge(Deps(spec), a, b) ensures b in Deps(spec) {
      ExactTranspose(spec, b, a);
    }
    forall a, b | Edge(Reverse(spec), a, b) ensures b in JobNames(spec.jobs) {
      ExactTranspose(spec, a, b);
    }
  }

  lemma {:induction false} ReversedWalk(g: Graph, h: Graph, w: seq<string>, a: string, b: string)
    returns (v: seq<string>)
    requires forall x, y | Edge(g, x, y) :: Edge(h, y, x)
    requires WalkBetween(g, w, a, b)
    ensures WalkBetween(h, v, b, a)
  {
    v := seq(|w|, i requires 0 <= i < |w| => w[|w| - 1 - i]);
    forall i | 0 <= i < |v| - 1 ensures Edge(h, v[i], v[i + 1]) {
      assert Edge(g, w[|w| - 2 - i], w[|w| - 1 - i]);
    }
  }

  /** A node is downstream of another exactly when that one is among its transitive dependencies. */
  lemma DescendantIffAncestor(spec: Spec, a: string, n: string)
    requires GoodEdges(JobNames(spec.jobs), spec.edges)
    ensures Reaches(Reverse(spec), a, n) <==> Reaches(Deps(spec), n, a)
  {
    forall x, y ensures Edge(Reverse(spec), x, y) <==> Edge(Deps(spec), y, x) { ExactTranspose(spec, x, y); }
    if Reaches(Reverse(spec), a, n) {
      var w :| WalkBetween(Reverse(spec), w, a, n);
      var v := ReversedWalk(Reverse(spec), Deps(spec), w, a, n);
    }
    if Reaches(Deps(spec), n, a) {
      var w :| WalkBetween(Deps(spec), w, n, a);
      var v := ReversedWalk(Deps(spec), Reverse(spec), w, n, a);
    }
  }

  // ---- Acceptance in the terms of the spec --------------------------------------------------

  /** A template with a name, without the operator's labels, and that does nothing forbidden. */
  ghost predicate ProperTemplate(j: JobTemplate) {
    && j.name != ""
    && (forall l | l in j.labels + j.template.podLabels ::
          l !in {"app.kubernetes.io/managed-by", "certificates.rezzell.com/certificatejob",
                 "certificates.rezzell.com/certificate", "certificates.rezzell.com/certificate-namespace",
                 "certificates.rezzell.com/workflow-node", "certificates.rezzell.com/run-id"})
    && forall e :: !Violates(j.template, e)
  }

  lemma ProperIsGood(j: JobTemplate)
    ensures ProperTemplate(j) <==> GoodTemplate(j)
  {
    PermittedIff(j.template);
    assert forall l :: l in j.labels + j.template.podLabels <==> l in j.labels || l in j.template.podLabels;
    assert j.labels !! RESERVED_LABELS <==> forall l | l in j.labels :: l !in RESERVED_LABELS;
    assert j.template.podLabels !! RESERVED_LABELS <==> forall l | l in j.template.podLabels :: l !in RESERVED_LABELS;
  }

  /** `from` is listed before `to`. */
  ghost predicate ListedBefore(order: seq<string>, from: string, to: string) {
    exists i, j :: 0 <= i < j < |order| && order[i] == from && order[j] == to
  }

  /** The nodes can be run one after the other in this order. */
  ghost predicate CanRunInOrder(spec: Spec, order: seq<string>) {
    && NoDuplicates(order) && Elements(order) == JobNames(spec.jobs)
    && forall k | 0 <= k < |spec.edges| :: ListedBefore(order, spec.edges[k].from, spec.edges[k].to)
  }

  lemma OrderFits(spec: Spec, order: seq<string>)
    requires GoodEdges(JobNames(spec.jobs), spec.edges)
    requires DependencyOrder(Deps(spec), order) && Elements(order) == JobNames(spec.jobs)
    ensures CanRunInOrder(spec, order)
  {
    forall k | 0 <= k < |spec.edges| ensures ListedBefore(order, spec.edges[k].from, spec.edges[k].to) {
      var e := spec.edges[k];
      assert e == WorkflowEdge(e.from, e.to);
      ExactTranspose(spec, e.from, e.to);
      assert e.to in Elements(order);
      var j :| 0 <= j < |order| && order[j] == e.to;
      assert e.from in order[..j];
      var i :| 0 <= i < j && order[..j][i] == e.from;
      assert order[i] == e.from;
    }
  }

  lemma FitIsGood(spec: Spec, order: seq<string>)
    requires CanRunInOrder(spec, order)
    ensures GoodEdges(JobNames(spec.jobs), spec.edges)
  {
    forall k | 0 <= k < |spec.edges| ensures GoodEdge(JobNames(spec.jobs), spec.edges[k]) {
      var e := spec.edges[k];
      assert ListedBefore(order, e.from, e.to);
      assert e.from in Elements(order) && e.to in Elements(order);
    }
  }

  lemma FitIsOrder(spec: Spec, order: seq<string>)
    requires CanRunInOrder(spec, order)
    ensures GoodEdges(JobNames(spec.jobs), spec.edges) && DependencyOrder(Deps(spec), order)
  {
    FitIsGood(spec, order);
    forall t, b | 0 <= t < |order| && Edge(Deps(spec), order[t], b) ensures b in order[..t] {
      ExactTranspose(spec, b, order[t]);
      var k :| 0 <= k < |spec.edges| && spec.edges[k] == WorkflowEdge(b, order[t]);
      BeforeIsEarlier(order, b, t);
    }
  }

  lemma BeforeIsEarlier(order: seq<string>, b: string, t: nat)
    requires NoDuplicates(order) && t < |order| && ListedBefore(order, b, order[t])
    ensures b in order[..t]
  {
    var i, j :| 0 <= i < j < |order| && order[i] == b && order[j] == order[t];
    assert j == t && order[..t][i] == b;
  }

  /** A spec is accepted exactly if it has proper templates with different names and its nodes can be
      run one after the other. */
  lemma AcceptedIff(spec: Spec)
    ensures Accepted(spec) <==>
              && spec.jobs != []
              && (forall i | 0 <= i < |spec.jobs| :: ProperTemplate(spec.jobs[i]))
              && (forall i, j | 0 <= i < j < |spec.jobs| :: spec.jobs[i].name != spec.jobs[j].name)
              && exists order :: CanRunInOrder(spec, order)
  {
    forall i | 0 <= i < |spec.jobs| ensures ProperTemplate(spec.jobs[i]) <==> GoodTemplate(spec.jobs[i]) {
      ProperIsGood(spec.jobs[i]);
    }
    if Accepted(spec) {
      DepsClosed(spec);
      var order := OrderExists(Deps(spec), []);
      OrderFits(spec, order);
    }
    if order :| CanRunInOrder(spec, order) {
      FitIsOrder(spec, order);
      OrderForbidsCycles(Deps(spec), order);
    }
  }
}
