/** The admission webhook: it fills in defaults before a CertificateJob is stored, and validates.
    The scheduler hardens templates again, so the two must agree. */
module Webhook {
  import opened StringOrder
  import opened DependencyGraph
  import opened JobSecurity
  import opened WorkflowSpec
  import opened Workflow

  const DEFAULT_TTL := 3600

  ghost function DefaultedTemplates(jobs: seq<JobTemplate>, ttl: int): seq<JobTemplate> {
    seq(|jobs|, i requires 0 <= i < |jobs| => jobs[i].(template := Defaulted(jobs[i].template, ttl)))
  }

  /** The spec after `Default`. */
  ghost function DefaultedSpec(s: Spec): Spec {
    s.(parallelism := Or(s.parallelism, 1),
       jobTTL := Or(s.jobTTL, DEFAULT_TTL),
       failurePolicy := if s.failurePolicy.Unspecified? then StopDownstream else s.failurePolicy,
       jobs := DefaultedTemplates(s.jobs, TTL(s)))
  }

  /** The object the webhook changes in place. */
  class CertificateJobObject {
    const edges: seq<WorkflowEdge>
    var jobs: seq<JobTemplate>
    var parallelism: Option<int>
    var jobTTL: Option<int>
    var failurePolicy: FailurePolicy

    ghost function View(): Spec
      reads this
    {
      Spec(jobs, edges, parallelism, jobTTL, failurePolicy)
    }

    constructor (spec: Spec)
      ensures View() == spec
    {
      edges, jobs, parallelism := spec.edges, spec.jobs, spec.parallelism;
      jobTTL, failurePolicy := spec.jobTTL, spec.failurePolicy;
    }

    /** `Default`: fields first, then every template in place. */
    method Default()
      modifies this
      ensures View() == DefaultedSpec(old(View()))
    {
      if parallelism.None? { parallelism := Some(1); }
      if jobTTL.None? { jobTTL := Some(DEFAULT_TTL); }
      if failurePolicy.Unspecified? { failurePolicy := StopDownstream; }
      ghost var before := jobs;
      for i := 0 to |jobs|
        invariant |jobs| == |before|
        invariant forall k | 0 <= k < |before| ::
          jobs[k] == if k < i then before[k].(template := Defaulted(before[k].template, jobTTL.value)) else before[k]
        modifies this`jobs
      {
        var template := new JobSpecObject(jobs[i].template);
        template.ApplyJobSecurityDefaults(jobTTL.value);
        var hardened := template.Value();
        jobs := jobs[i := jobs[i].(template := hardened)];
      }
      assert jobs == DefaultedTemplates(before, jobTTL.value);
    }
  }

  // ---- Validation ---------------------------------------------------------------------------

  /** What the validating webhook lets through. */
  ghost predicate Admitted(s: Spec) {
    && s.jobs != []
    && (s.parallelism.Some? ==> s.parallelism.value >= 1)
    && forall i | 0 <= i < |s.jobs| :: GoodTemplate(s.jobs[i])
  }

  /** `validateCertificateJob`. */
  method ValidateCertificateJob(s: Spec) returns (ok: bool)
    ensures ok <==> Admitted(s)
  {
    if |s.jobs| == 0 { return false; }
    if s.parallelism.Some? && s.parallelism.value < 1 { return false; }
    for i := 0 to |s.jobs|
      invariant forall k | 0 <= k < i :: GoodTemplate(s.jobs[k])
    {
      var job := s.jobs[i];
      if job.name == "" { return false; }
      ok := ValidateReservedLabels(job.labels);
      if !ok { return; }
      ok := ValidateReservedLabels(job.template.podLabels);
      if !ok { return; }
      var violation := ValidateJobTemplateSecurity(job.template);
      if violation.Some? { return false; }
    }
    return true;
  }

  /** The webhook checks less than the controller: of an admitted spec the controller still refuses
      duplicate names, bad edges and cycles, and nothing else. */
  lemma AdmittedIsAccepted(s: Spec)
    requires Admitted(s)
    ensures Accepted(s) <==>
              && (forall i, j | 0 <= i < j < |s.jobs| :: s.jobs[i].name != s.jobs[j].name)
              && GoodEdges(JobNames(s.jobs), s.edges) && Acyclic(Deps(s))
  {
  }

  const CYCLIC := Spec([JobTemplate("a", {}, EMPTY_SPEC), JobTemplate("b", {}, EMPTY_SPEC)],
                       [WorkflowEdge("a", "b"), WorkflowEdge("b", "a")], None, None, Unspecified)

  lemma MutualEdges(s: Spec, a: string, b: string)
    requires WorkflowEdge(a, b) in s.edges && WorkflowEdge(b, a) in s.edges
    ensures !Accepted(s)
  {
    if GoodEdges(JobNames(s.jobs), s.edges) {
      ExactTranspose(s, a, b);
      ExactTranspose(s, b, a);
      EdgeReaches(Deps(s), a, b);
      EdgeReaches(Deps(s), b, a);
      ReachesTransitive(Deps(s), a, b, a);
    }
  }

  /** An admitted spec whose workflow has a cycle, which only the controller reports. */
  lemma CycleIsAdmitted()
    ensures Admitted(CYCLIC) && !Accepted(CYCLIC)
  {
    assert CYCLIC.edges[0] in CYCLIC.edges && CYCLIC.edges[1] in CYCLIC.edges;
    MutualEdges(CYCLIC, "a", "b");
  }

  // ---- Defaulting does not change the workflow ----------------------------------------------

  /** Defaulting twice is defaulting once. */
  lemma DefaultingIsIdempotent(s: Spec)
    ensures DefaultedSpec(DefaultedSpec(s)) == DefaultedSpec(s)
  {
    var once := DefaultedSpec(s);
    forall i | 0 <= i < |s.jobs| ensures DefaultedTemplates(once.jobs, TTL(once))[i] == once.jobs[i] {
      HardeningIsIdempotent(s.jobs[i].template, TTL(s), TTL(once));
    }
    assert DefaultedTemplates(once.jobs, TTL(once)) == once.jobs;
  }

  lemma DefaultedNames(s: Spec)
    ensures JobNames(DefaultedSpec(s).jobs) == JobNames(s.jobs)
    ensures Deps(DefaultedSpec(s)) == Deps(s) && Reverse(DefaultedSpec(s)) == Reverse(s)
  {
    var t := DefaultedSpec(s);
    forall n | n in JobNames(s.jobs) ensures n in JobNames(t.jobs) {
      var i :| 0 <= i < |s.jobs| && s.jobs[i].name == n;
      assert t.jobs[i].name == n;
    }
    forall n | n in JobNames(t.jobs) ensures n in JobNames(s.jobs) {
      var i :| 0 <= i < |t.jobs| && t.jobs[i].name == n;
      assert s.jobs[i].name == n;
    }
  }

  /** The spec with the token setting of every template cleared. */
  ghost function TokensCleared(s: Spec): Spec {
    s.(jobs := seq(|s.jobs|,
                   i requires 0 <= i < |s.jobs| => s.jobs[i].(template := s.jobs[i].template.(automountToken := None))))
  }

  /** The controller accepts a defaulted spec exactly if it would accept the submitted one with the
      token settings cleared, which is all that defaulting overwrites. */
  lemma DefaultedAcceptedIff(s: Spec)
    ensures Accepted(DefaultedSpec(s)) <==> Accepted(TokensCleared(s))
  {
    var t, c := DefaultedSpec(s), TokensCleared(s);
    DefaultedNames(s);
    ClearedNames(s);
    forall i | 0 <= i < |s.jobs| ensures GoodTemplate(t.jobs[i]) <==> GoodTemplate(c.jobs[i]) {
      HardenedIffPermitted(s.jobs[i].template, TTL(s));
    }
    assert GoodJobs(t.jobs) <==> GoodJobs(c.jobs);
  }

  /** And the validating webhook admits a defaulted spec exactly if it would admit the submitted one
      with the token settings cleared: a missing parallelism is filled with an admitted one. */
  lemma DefaultedAdmittedIff(s: Spec)
    ensures Admitted(DefaultedSpec(s)) <==>
              && s.jobs != [] && (s.parallelism.Some? ==> s.parallelism.value >= 1)
              && forall i | 0 <= i < |s.jobs| :: GoodTemplate(TokensCleared(s).jobs[i])
  {
    var t, c := DefaultedSpec(s), TokensCleared(s);
    forall i | 0 <= i < |s.jobs| ensures GoodTemplate(t.jobs[i]) <==> GoodTemplate(c.jobs[i]) {
      HardenedIffPermitted(s.jobs[i].template, TTL(s));
    }
  }

  /** Defaulting fills each gap with the documented value and keeps everything else of the spec and of
      its templates; a template without a TTL gets the one of the spec. */
  lemma DefaultingFillsGaps(s: Spec, i: nat)
    requires i < |s.jobs|
    ensures var t := DefaultedSpec(s);
            && Fills(s.parallelism, 1, t.parallelism) && Fills(s.jobTTL, 3600, t.jobTTL) && t.edges == s.edges
            && t.failurePolicy == (if s.failurePolicy.Unspecified? then StopDownstream else s.failurePolicy)
            && |t.jobs| == |s.jobs| && t.jobs[i].name == s.jobs[i].name && t.jobs[i].labels == s.jobs[i].labels
            && var from, to := s.jobs[i].template, t.jobs[i].template;
               && Fills(from.ttl, if s.jobTTL.Some? then s.jobTTL.value else 3600, to.ttl)
               && to.podLabels == from.podLabels && to.volumes == from.volumes
               && Fills(from.enableServiceLinks, false, to.enableServiceLinks)
               && FillsPod(from.podSecurity, to.podSecurity)
               && FillsContainers(from.initContainers, to.initContainers)
               && FillsContainers(from.containers, to.containers)
  {
    HardeningKeepsChoices(s.jobs[i].template, TTL(s));
  }

  lemma ClearedNames(s: Spec)
    ensures JobNames(TokensCleared(s).jobs) == JobNames(s.jobs) && Deps(TokensCleared(s)) == Deps(s)
  {
    var c := TokensCleared(s);
    forall n | n in JobNames(s.jobs) ensures n in JobNames(c.jobs) {
      var i :| 0 <= i < |s.jobs| && s.jobs[i].name == n;
      assert c.jobs[i].name == n;
    }
    forall n | n in JobNames(c.jobs) ensures n in JobNames(s.jobs) {
      var i :| 0 <= i < |c.jobs| && c.jobs[i].name == n;
      assert s.jobs[i].name == n;
    }
  }

  lemma {:induction false} DefaultedTemplateOf(jobs: seq<JobTemplate>, ttl: int, node: string)
    ensures var t, u := TemplateOf(jobs, node), TemplateOf(DefaultedTemplates(jobs, ttl), node);
            u == Defaulted(t, ttl) || (t == EMPTY_SPEC && u == EMPTY_SPEC)
  {
    if jobs != [] {
      var all, front := DefaultedTemplates(jobs, ttl), jobs[..|jobs| - 1];
      assert all[..|all| - 1] == DefaultedTemplates(front, ttl);
      DefaultedTemplateOf(front, ttl, node);
    }
  }

  /** The scheduler builds the same Job from the stored, defaulted spec as from the one submitted:
      its own hardening finds nothing left to do. */
  lemma SameJob(s: Spec, secretName: string, node: string)
    ensures NewJob(DefaultedSpec(s), secretName, node) == NewJob(s, secretName, node)
  {
    var ttl := TTL(s);
    assert TTL(DefaultedSpec(s)) == ttl;
    DefaultedTemplateOf(s.jobs, ttl, node);
    var t, u := TemplateOf(s.jobs, node), TemplateOf(DefaultedSpec(s).jobs, node);
    var labels := t.podLabels + RESERVED_LABELS;
    if u == Defaulted(t, ttl) {
      assert u.(podLabels := labels) == Defaulted(t.(podLabels := labels), ttl);
      HardeningIsIdempotent(t.(podLabels := labels), ttl, ttl);
    }
  }

  /** Two runs that name and build Jobs alike, over the same graph, with policies that act alike. */
  ghost predicate ActAlike(a: Run, b: Run) {
    && (forall n :: a.nameOf(n) == b.nameOf(n))
    && (forall n :: a.newJob(n) == b.newJob(n))
    && Deps(a.spec) == Deps(b.spec) && Reverse(a.spec) == Reverse(b.spec) && Parallelism(a.spec) == Parallelism(b.spec)
    && (a.spec.failurePolicy.BestEffort? <==> b.spec.failurePolicy.BestEffort?)
    && (a.spec.failurePolicy.ContinueIndependent? <==> b.spec.failurePolicy.ContinueIndependent?)
  }

  lemma {:induction false} SameJobsAfter(a: Run, b: Run, jobs: Jobs, names: seq<string>)
    requires ActAlike(a, b)
    ensures JobsAfter(a, jobs, names) == JobsAfter(b, jobs, names)
  {
    if names != [] { SameJobsAfter(a, b, jobs, names[..|names| - 1]); }
  }

  lemma SameStops(a: Run, b: Run, jobs: Jobs, order: seq<string>, faults: Faults, k: nat)
    requires ActAlike(a, b) && k < |order|
    ensures StopsAt(a, jobs, order, faults, k) == StopsAt(b, jobs, order, faults, k)
    ensures LostAt(a, jobs, order, faults, k) == LostAt(b, jobs, order, faults, k)
  {
    SameJobsAfter(a, b, jobs, order[..k]);
  }

  lemma {:induction false} SameCount(a: Run, b: Run, jobs: Jobs, order: seq<string>, slots: nat, faults: Faults, k: nat)
    requires ActAlike(a, b) && k <= |order| && k <= slots
    ensures StartedCount(a, jobs, order, slots, faults, k) == StartedCount(b, jobs, order, slots, faults, k)
    decreases |order| - k
  {
    if k < |order| && k < slots {
      SameStops(a, b, jobs, order, faults, k);
      SameCount(a, b, jobs, order, slots, faults, k + 1);
    }
  }

  lemma SameAttempt(a: Run, b: Run, nodes: seq<NodeState>, jobs: Jobs, order: seq<string>, slots: nat, faults: Faults)
    requires ActAlike(a, b)
    ensures Attempt(a, nodes, jobs, order, slots, faults) == Attempt(b, nodes, jobs, order, slots, faults)
  {
    SameCount(a, b, jobs, order, slots, faults, 0);
    var n := StartedCount(a, jobs, order, slots, faults, 0);
    if n < |order| { SameStops(a, b, jobs, order, faults, n); }
    SameJobsAfter(a, b, jobs, order[..n]);
    if n < |order| { SameJobsAfter(a, b, jobs, order[..n + 1]); }
    assert Started(a, nodes, Elements(order[..n])) == Started(b, nodes, Elements(order[..n]));
  }

  lemma SamePolicy(p: FailurePolicy, q: FailurePolicy, nodes: seq<NodeState>, deps: Graph, reverse: Graph,
                   failed: set<string>)
    requires (p.BestEffort? <==> q.BestEffort?) && (p.ContinueIndependent? <==> q.ContinueIndependent?)
    ensures AfterPolicy(nodes, p, reverse, failed) == AfterPolicy(nodes, q, reverse, failed)
    ensures Runnable(p, nodes, deps) == Runnable(q, nodes, deps)
  {
    assert forall n :: SkippedBy(p, reverse, failed, n) == SkippedBy(q, reverse, failed, n);
    assert forall n: NodeState :: CanRun(p, nodes, deps, n) == CanRun(q, nodes, deps, n);
  }

  lemma SamePass(a: Run, b: Run, nodes: seq<NodeState>, jobs: Jobs, faults: Faults)
    requires ActAlike(a, b)
    ensures NodePass(a, nodes, jobs, faults) == NodePass(b, nodes, jobs, faults)
  {
    var p, q := a.spec.failurePolicy, b.spec.failurePolicy;
    SamePolicy(p, q, ObservedUpTo(nodes, jobs, |nodes|), Deps(a.spec), Reverse(a.spec),
               FailedUpTo(nodes, jobs, |nodes|));
    var settled := Settled(a, nodes, jobs);
    assert settled == Settled(b, nodes, jobs);
    SamePolicy(p, q, settled, Deps(a.spec), Reverse(a.spec), {});
    assert Order(a, settled) == Order(b, settled);
    if Slots(a, nodes, jobs) > 0 {
      SameAttempt(a, b, settled, jobs, Order(a, settled), Slots(a, nodes, jobs), faults);
    }
  }

  lemma {:induction false} SameEnsured(jobs: seq<JobTemplate>, ttl: int, nodes: seq<NodeState>)
    ensures Ensured(DefaultedTemplates(jobs, ttl), nodes) == Ensured(jobs, nodes)
  {
    if jobs != [] {
      var all, front := DefaultedTemplates(jobs, ttl), jobs[..|jobs| - 1];
      assert all[..|all| - 1] == DefaultedTemplates(front, ttl);
      SameEnsured(front, ttl, nodes);
    }
  }

  /** Defaulting keeps the meaning of a workflow: for every stored state, cluster and fault, a pass
      over the defaulted spec does what a pass over the submitted one would do. */
  lemma DefaultingKeepsMeaning(ctx: Context, cert: string, secretName: string, runID: string,
                               nodes: seq<NodeState>, jobs: Jobs, faults: Faults)
    ensures var stored := ctx.(spec := DefaultedSpec(ctx.spec));
            RunPass(RunOf(stored, cert, secretName, runID), nodes, jobs, faults)
            == RunPass(RunOf(ctx, cert, secretName, runID), nodes, jobs, faults)
  {
    var stored := ctx.(spec := DefaultedSpec(ctx.spec));
    var a, b := RunOf(stored, cert, secretName, runID), RunOf(ctx, cert, secretName, runID);
    DefaultedNames(ctx.spec);
    forall n ensures a.nameOf(n) == b.nameOf(n) && a.newJob(n) == b.newJob(n) { SameJob(ctx.spec, secretName, n); }
    SameEnsured(ctx.spec.jobs, TTL(ctx.spec), nodes);
    SamePass(a, b, Ensured(ctx.spec.jobs, nodes), jobs, faults);
  }
}
