/** The Jobs the controller creates, told field by field from the templates of the spec. */
module BuiltJobs {
  import opened StringOrder
  import opened JobSecurity
  import opened WorkflowSpec
  import opened Workflow
  import opened RunInvariant
  import opened Passes
  import opened Replay
  import opened Runs
  import Naming

  /** Each template is found under its own name, and no other name leads to one. */
  lemma {:induction false} TemplateIsOwn(jobs: seq<JobTemplate>, node: string)
    requires GoodJobs(jobs)
    ensures forall k | 0 <= k < |jobs| && jobs[k].name == node :: TemplateOf(jobs, node) == jobs[k].template
    ensures node !in JobNames(jobs) ==> TemplateOf(jobs, node) == EMPTY_SPEC
  {
    if jobs != [] {
      var front := jobs[..|jobs| - 1];
      LastJob(jobs);
      TemplateIsOwn(front, node);
      forall k | 0 <= k < |jobs| && jobs[k].name == node ensures TemplateOf(jobs, node) == jobs[k].template {
        if k < |front| { assert front[k] == jobs[k]; }
      }
    }
  }

  /** A container of a template and the one it becomes. */
  predicate ContainerBuilt(c: Container, d: Container) {
    FillsContainer(c, d.(mounts := c.mounts)) && MountsWith(c.mounts, d.mounts)
  }

  predicate ContainersBuilt(cs: seq<Container>, ds: seq<Container>) {
    |ds| == |cs| && forall i | 0 <= i < |cs| :: ContainerBuilt(cs[i], ds[i])
  }

  /** The Job spec built from a template: what the template chose is kept, gaps are filled, the
      operator's labels and the Secret are added, and the token is refused. */
  predicate SpecBuilt(t: JobSpec, ttl: int, secret: string, r: JobSpec) {
    && r.podLabels == t.podLabels + {
         "app.kubernetes.io/managed-by",
         "certificates.rezzell.com/certificatejob", "certificates.rezzell.com/certificate",
         "certificates.rezzell.com/certificate-namespace", "certificates.rezzell.com/workflow-node",
         "certificates.rezzell.com/run-id"}
    && r.hostNetwork == t.hostNetwork && r.hostPID == t.hostPID && r.hostIPC == t.hostIPC
    && r.serviceAccountName == t.serviceAccountName && r.automountToken == Some(false)
    && Fills(t.ttl, ttl, r.ttl) && Fills(t.enableServiceLinks, false, r.enableServiceLinks)
    && FillsPod(t.podSecurity, r.podSecurity)
    && VolumesWith(t.volumes, secret, r.volumes)
    && ContainersBuilt(t.initContainers, r.initContainers) && ContainersBuilt(t.containers, r.containers)
  }

  lemma BothBuild(cs: seq<Container>, hs: seq<Container>, ds: seq<Container>)
    requires FillsContainers(cs, hs) && MountedInto(hs, ds)
    ensures ContainersBuilt(cs, ds)
  {
    forall i | 0 <= i < |cs| ensures ContainerBuilt(cs[i], ds[i]) {
      assert FillsContainer(cs[i], hs[i]) && ds[i] == hs[i].(mounts := ds[i].mounts);
      assert ds[i].(mounts := cs[i].mounts) == hs[i];
    }
  }

  /** The TTL a template gets that has none: the declared one, or an hour. */
  function DeclaredTTL(spec: Spec): int {
    if spec.jobTTL.Some? then spec.jobTTL.value else 3600
  }

  /** A new Job: built from this template, neither finished nor at work. */
  predicate NewFrom(t: JobSpec, spec: Spec, secret: string, j: Job) {
    SpecBuilt(t, DeclaredTTL(spec), secret, j.spec) && !j.complete && !j.failed && j.active == 0
  }

  lemma NewJobBuilt(spec: Spec, secret: string, node: string)
    requires secret != ""
    ensures NewFrom(TemplateOf(spec.jobs, node), spec, secret, NewJob(spec, secret, node))
  {
    var t := TemplateOf(spec.jobs, node);
    var labelled := t.(podLabels := t.podLabels + RESERVED_LABELS);
    var hardened := Defaulted(labelled, TTL(spec));
    HardeningKeepsChoices(labelled, TTL(spec));
    InjectionAddsOnly(hardened, secret);
    var r := Injected(hardened, secret);
    BothBuild(t.initContainers, hardened.initContainers, r.initContainers);
    BothBuild(t.containers, hardened.containers, r.containers);
  }

  /** Every Job a pass adds to the cluster, in any trace and with no assumption, carries the name of a
      node of its run and is built from the template of that node; in a run that satisfies the
      invariant there is such a template. */
  lemma CreatedFromOwnTemplate(site: Site, ws: seq<World>, es: seq<Event>, k: nat, key: string) returns (n: string)
    requires IsTrace(site, ws, es) && k < |es|
    requires es[k].Reconciled? && key in ws[k + 1].jobs && key !in ws[k].jobs
    ensures var runID := Result(site, ws[k], es[k]).state.runID;
            key == Naming.JobName(site.hash, site.lower, site.cjob, site.cert, n, runID)
    ensures forall j | 0 <= j < |ws[k].spec.jobs| && ws[k].spec.jobs[j].name == n ::
              NewFrom(ws[k].spec.jobs[j].template, ws[k].spec, es[k].secretName, ws[k + 1].jobs[key])
    ensures n !in JobNames(ws[k].spec.jobs) ==> NewFrom(EMPTY_SPEC, ws[k].spec, es[k].secretName, ws[k + 1].jobs[key])
    ensures NoCollisions(site, ws, es) && Inv(site, ws[0]) ==> n in JobNames(ws[k].spec.jobs)
  {
    var w, e := ws[k], es[k];
    assert StepOf(site, ws, es, k);
    if !Works(w, e) && Accepted(w.spec) { IdleResult(site, w, e); }
    assert Works(w, e);
    WorkResult(site, w, e);
    n := AddedFor(site, w, e, key);
    MadeFromTemplate(w.spec, e.secretName, n);
    if NoCollisions(site, ws, es) && Inv(site, ws[0]) {
      TraceKeeps(site, ws, es, k);
      NodesHaveTemplates(site, w, e);
    }
  }

  lemma MadeFromTemplate(spec: Spec, secret: string, n: string)
    requires secret != "" && GoodJobs(spec.jobs)
    ensures forall j | 0 <= j < |spec.jobs| && spec.jobs[j].name == n ::
              NewFrom(spec.jobs[j].template, spec, secret, NewJob(spec, secret, n))
    ensures n !in JobNames(spec.jobs) ==> NewFrom(EMPTY_SPEC, spec, secret, NewJob(spec, secret, n))
  {
    NewJobBuilt(spec, secret, n);
    TemplateIsOwn(spec.jobs, n);
  }

  lemma NodesHaveTemplates(site: Site, w: World, e: Event)
    requires Inv(site, w) && Works(w, e)
    ensures NodeNames(Ensured(w.spec.jobs, BegunState(w, e).nodes)) == JobNames(w.spec.jobs)
  {
    BegunInv(site, w, e);
    EnsuredNothing(w.spec.jobs, BegunState(w, e).nodes);
  }

  /** The node a new Job was made for. */
  lemma AddedFor(site: Site, w: World, e: Event, key: string) returns (n: string)
    requires Works(w, e) && key in PassFor(site, w, e).jobs && key !in w.jobs
    ensures n in NodeNames(Ensured(w.spec.jobs, BegunState(w, e).nodes))
    ensures key == RunFor(site, w, e).nameOf(n) && PassFor(site, w, e).jobs[key] == NewJob(w.spec, e.secretName, n)
  {
    var run, nodes := RunFor(site, w, e), Ensured(w.spec.jobs, BegunState(w, e).nodes);
    var out := NodePass(run, nodes, w.jobs, e.faults);
    CreatedShape(run, nodes, w.jobs, e.faults);
    assert MadeFor(run, out.created, key, out.jobs[key]);
    n :| n in out.created && key == run.nameOf(n) && out.jobs[key] == run.newJob(n);
    PrefixElements(out.created, Order(run, Settled(run, nodes, w.jobs)));
    RunnableNames(run, nodes, w.jobs);
    assert n in Elements(out.created);
  }
}
