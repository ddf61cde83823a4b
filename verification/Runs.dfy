/** The life of one certificate under one CertificateJob: reconcile passes that may fail or lose
    their status write, interleaved with a cluster that finishes and deletes Jobs, and with spec
    edits between runs. */
module Runs {
  import opened StringOrder
  import opened WorkflowSpec
  import opened Workflow
  import opened RunInvariant
  import opened Passes
  import Naming

  // ---- The transition system ----------------------------------------------------------------

  /** What never changes: the platform functions and the names of the two objects. */
  datatype Site = Site(hash: string -> string, lower: char -> char, cjob: string, namespace: string, cert: string)

  /** The stored spec and status entry, and the Jobs in the namespace. */
  datatype World = World(spec: Spec, st: ExecState, jobs: Jobs)

  datatype Event =
    | ClusterMoves
    | SpecEdited
    | Reconciled(secretName: string, input: Input, faults: Faults, written: bool)

  function ContextOf(site: Site, spec: Spec): Context {
    Context(site.hash, site.lower, site.cjob, spec)
  }

  /** What the pass computes in memory. */
  ghost function Result(site: Site, w: World, e: Event): CertOut
    requires e.Reconciled?
  {
    CertPass(ContextOf(site, w.spec), Certificate(site.namespace, site.cert, e.secretName), e.input, w.st, w.jobs,
             e.faults)
  }

  /** No run is under way. */
  ghost predicate AtRest(st: ExecState) {
    st.inputHash == "" || IsTerminal(st.phase)
  }

  /** A finished Job stays finished that way or is deleted; a deleted one does not come back. */
  ghost predicate StaysFinal(a: Jobs, b: Jobs, k: string) {
    && (k !in a ==> k !in b)
    && (k in a && k in b ==> (a[k].complete ==> b[k].complete) && (IsBroken(a[k]) ==> IsBroken(b[k])))
  }

  ghost predicate FinishedIsFinal(st: ExecState, a: Jobs, b: Jobs) {
    forall i | 0 <= i < |st.nodes| && st.nodes[i].jobName != "" :: StaysFinal(a, b, st.nodes[i].jobName)
  }

  /** The cluster may do anything to Jobs the stored run does not track. The spec is edited between
      runs only. A pass over a spec that is not accepted does nothing. */
  ghost predicate Next(site: Site, w: World, e: Event, w': World) {
    match e
    case ClusterMoves => w'.spec == w.spec && w'.st == w.st && (AtRest(w.st) || FinishedIsFinal(w.st, w.jobs, w'.jobs))
    case SpecEdited => w'.st == w.st && w'.jobs == w.jobs && AtRest(w.st)
    case Reconciled(_, _, _, written) =>
      && w'.spec == w.spec
      && if Accepted(w.spec)
         then w'.jobs == Result(site, w, e).jobs && w'.st == if written then Result(site, w, e).state else w.st
         else w'.jobs == w.jobs && w'.st == w.st
  }

  /** The run a pass works on. */
  ghost function RunAt(site: Site, spec: Spec, secretName: string, runID: string): Run {
    RunOf(ContextOf(site, spec), site.cert, secretName, runID)
  }

  /** The Job names of the run a pass works on are distinct: the assumption on the hash. */
  ghost predicate Unambiguous(site: Site, w: World, e: Event) {
    e.Reconciled? && Accepted(w.spec) ==>
      DistinctNames(RunAt(site, w.spec, e.secretName, Result(site, w, e).state.runID), JobNames(w.spec.jobs))
  }

  /** The assumption follows if the shortened hash tells the keys of the run's nodes apart. */
  lemma NamesAreDistinct(site: Site, spec: Spec, secretName: string, runID: string, names: set<string>)
    requires Naming.IsHexHash(site.hash)
    requires forall a, b | a in names && b in names ::
               Naming.Distinguishes(site.hash, Naming.HashedKey(site.cjob, site.cert, a, runID),
                                    Naming.HashedKey(site.cjob, site.cert, b, runID))
    ensures DistinctNames(RunAt(site, spec, secretName, runID), names)
  {
    var run := RunAt(site, spec, secretName, runID);
    forall a, b | a in names && b in names && run.nameOf(a) == run.nameOf(b) ensures a == b {
      Naming.NodeNamesDistinct(site.hash, site.lower, site.cjob, site.cert, runID, a, b);
    }
  }

  ghost predicate IsTrace(site: Site, ws: seq<World>, es: seq<Event>) {
    |ws| == |es| + 1 && forall k {:trigger StepOf(site, ws, es, k)} | 0 <= k < |es| :: StepOf(site, ws, es, k)
  }

  ghost predicate StepOf(site: Site, ws: seq<World>, es: seq<Event>, k: int)
    requires |ws| == |es| + 1 && 0 <= k < |es|
  {
    Next(site, ws[k], es[k], ws[k + 1])
  }

  ghost predicate NoCollisions(site: Site, ws: seq<World>, es: seq<Event>)
    requires |ws| == |es| + 1
  {
    forall k {:trigger ClearStep(site, ws, es, k)} | 0 <= k < |es| :: ClearStep(site, ws, es, k)
  }

  ghost predicate ClearStep(site: Site, ws: seq<World>, es: seq<Event>, k: int)
    requires |ws| == |es| + 1 && 0 <= k < |es|
  {
    Unambiguous(site, ws[k], es[k])
  }

  /** A history and one more step. */
  lemma OneMore(site: Site, ws: seq<World>, es: seq<Event>, e: Event, w: World)
    requires IsTrace(site, ws, es) && NoCollisions(site, ws, es)
    requires Next(site, ws[|es|], e, w) && Unambiguous(site, ws[|es|], e)
    ensures IsTrace(site, ws + [w], es + [e]) && NoCollisions(site, ws + [w], es + [e])
  {
    var v, d := ws + [w], es + [e];
    forall k | 0 <= k < |d| ensures StepOf(site, v, d, k) && ClearStep(site, v, d, k) {
      if k < |es| {
        assert StepOf(site, ws, es, k) && ClearStep(site, ws, es, k);
        assert v[k] == ws[k] && v[k + 1] == ws[k + 1] && d[k] == es[k];
      }
    }
  }

  lemma TwoSteps(site: Site, a: World, d: Event, b: World, e: Event, c: World) returns (ws: seq<World>, es: seq<Event>)
    requires Next(site, a, d, b) && Next(site, b, e, c) && Unambiguous(site, a, d) && Unambiguous(site, b, e)
    ensures ws == [a, b, c] && es == [d, e] && IsTrace(site, ws, es) && NoCollisions(site, ws, es)
  {
    ws, es := [a] + [b], [] + [d];
    OneMore(site, [a], [], d, b);
    OneMore(site, ws, es, e, c);
    ws, es := ws + [c], es + [e];
  }

  lemma ThreeSteps(site: Site, ws: seq<World>, es: seq<Event>, e: Event, w: World)
    returns (v: seq<World>, d: seq<Event>)
    requires |es| == 2 && IsTrace(site, ws, es) && NoCollisions(site, ws, es)
    requires Next(site, ws[2], e, w) && Unambiguous(site, ws[2], e)
    ensures v == [ws[0], ws[1], ws[2], w] && d == [es[0], es[1], e] && IsTrace(site, v, d) && NoCollisions(site, v, d)
  {
    OneMore(site, ws, es, e, w);
    v, d := ws + [w], es + [e];
  }

  /** A certificate seen for the first time. */
  ghost predicate Fresh(st: ExecState) {
    st.inputHash == "" && st.runID == "" && st.phase.Pending? && st.nodes == []
  }

  // ---- The invariant ------------------------------------------------------------------------

  ghost predicate AllSucceeded(nodes: seq<NodeState>) {
    forall i | 0 <= i < |nodes| :: nodes[i].phase.Succeeded?
  }

  /** A run under way satisfies the run invariant; a succeeded one has only succeeded nodes; a
      skipped node never stands without a failed one. */
  ghost predicate Inv(site: Site, w: World) {
    && (AtRest(w.st) || RunInv(RunAt(site, w.spec, "", w.st.runID), w.st.nodes, w.jobs))
    && (w.st.phase.Succeeded? ==> AllSucceeded(w.st.nodes))
    && (Any(w.st.nodes, Skipped) ==> Any(w.st.nodes, Failed))
  }

  lemma SecretNameIrrelevant(site: Site, spec: Spec, a: string, b: string, runID: string, nodes: seq<NodeState>,
                             jobs: Jobs)
    requires RunInv(RunAt(site, spec, a, runID), nodes, jobs)
    ensures RunInv(RunAt(site, spec, b, runID), nodes, jobs)
  {
    var r, q := RunAt(site, spec, a, runID), RunAt(site, spec, b, runID);
    assert r.nameOf == q.nameOf && r.spec == q.spec;
    forall i | 0 <= i < |nodes| ensures NodeInv(q, nodes[i], jobs) { assert NodeInv(r, nodes[i], jobs); }
  }

  lemma InitialNames(spec: Spec)
    ensures UniqueNames(InitialNodes(spec)) && NodeNames(InitialNodes(spec)) == JobNames(spec.jobs)
  {
    var names, nodes := InOrder(JobNames(spec.jobs)), InitialNodes(spec);
    StrictlySortedNoDuplicates(names);
    forall n | n in JobNames(spec.jobs) ensures n in NodeNames(nodes) {
      assert n in Elements(names);
      var i :| 0 <= i < |names| && names[i] == n;
      assert nodes[i].name == n;
    }
    forall n | n in NodeNames(nodes) ensures n in JobNames(spec.jobs) {
      var i := Position(nodes, n);
      assert names[i] in Elements(names);
    }
  }

  lemma InitialInv(run: Run, jobs: Jobs)
    requires Accepted(run.spec)
    ensures RunInv(run, InitialNodes(run.spec), jobs)
  {
    InitialNames(run.spec);
    UntouchedInv(run, InitialNodes(run.spec), jobs);
  }

  lemma UntouchedInv(run: Run, nodes: seq<NodeState>, jobs: Jobs)
    requires MatchesSpec(run.spec, nodes)
    requires forall i | 0 <= i < |nodes| :: nodes[i].phase.Pending? && nodes[i].jobName == ""
    ensures RunInv(run, nodes, jobs)
  {
  }

  /** In a run a skipped node has a failed one beside it, so a workflow that succeeds has none. */
  lemma SkippedNeedsFailed(run: Run, nodes: seq<NodeState>, jobs: Jobs)
    requires RunInv(run, nodes, jobs)
    ensures Any(nodes, Skipped) ==> Any(nodes, Failed)
    ensures Derived(nodes).Succeeded? ==> AllSucceeded(nodes)
  {
    if Any(nodes, Skipped) {
      var i :| 0 <= i < |nodes| && nodes[i].phase == Skipped;
      assert HasCause(run.spec, nodes, i);
      var j :| 0 <= j < |nodes| && Blames(run.spec, nodes[i], nodes[j]);
      assert nodes[j].phase == Failed;
    }
    if Derived(nodes).Succeeded? {
      forall i | 0 <= i < |nodes| ensures nodes[i].phase.Succeeded? {
        var p := nodes[i].phase;
        assert Any(nodes, p);
      }
    }
  }

  /** The state the workflow pass of an event works on, once the hash is known. */
  ghost function BegunState(w: World, e: Event): ExecState
    requires e.Reconciled? && e.input.Hashed?
  {
    AfterHash(w.spec, e.secretName, w.st, e.input.hash)
  }

  /** The event runs the workflow pass. */
  ghost predicate Works(w: World, e: Event) {
    e.Reconciled? && Accepted(w.spec) && e.secretName != "" && e.input.Hashed? && !IsTerminal(BegunState(w, e).phase)
  }

  ghost function RunFor(site: Site, w: World, e: Event): Run
    requires Works(w, e)
  {
    RunAt(site, w.spec, e.secretName, BegunState(w, e).runID)
  }

  /** The outcome of the workflow pass of an event. */
  ghost function PassFor(site: Site, w: World, e: Event): PassOut
    requires Works(w, e)
  {
    RunPass(RunFor(site, w, e), BegunState(w, e).nodes, w.jobs, e.faults)
  }

  lemma WorkResult(site: Site, w: World, e: Event)
    requires Works(w, e)
    ensures Result(site, w, e) == Concluded(BegunState(w, e), PassFor(site, w, e))
    ensures Result(site, w, e).state.runID == BegunState(w, e).runID
  {
  }

  /** When the workflow pass starts its run satisfies the invariant: it has just begun, or it was
      under way. */
  lemma BegunInv(site: Site, w: World, e: Event)
    requires Inv(site, w) && Works(w, e)
    ensures RunInv(RunFor(site, w, e), BegunState(w, e).nodes, w.jobs)
    ensures NodeNames(BegunState(w, e).nodes) == JobNames(w.spec.jobs)
  {
    if Starts(w.st, e.input.hash) {
      InitialInv(RunFor(site, w, e), w.jobs);
    } else {
      SecretNameIrrelevant(site, w.spec, "", e.secretName, w.st.runID, w.st.nodes, w.jobs);
    }
  }

  lemma WorkKeeps(site: Site, w: World, e: Event)
    requires Inv(site, w) && Works(w, e) && Unambiguous(site, w, e)
    ensures RunInv(RunFor(site, w, e), PassFor(site, w, e).nodes, PassFor(site, w, e).jobs)
    ensures RunInv(RunFor(site, w, e), BegunState(w, e).nodes, PassFor(site, w, e).jobs)
  {
    BegunInv(site, w, e);
    WorkResult(site, w, e);
    PassKeeps(RunFor(site, w, e), BegunState(w, e).nodes, w.jobs, e.faults);
  }

  lemma WrittenKeeps(site: Site, w: World, e: Event)
    requires Inv(site, w) && Works(w, e) && Unambiguous(site, w, e)
    ensures Inv(site, World(w.spec, Result(site, w, e).state, Result(site, w, e).jobs))
  {
    WorkKeeps(site, w, e);
    WorkResult(site, w, e);
    var out, begun := PassFor(site, w, e), BegunState(w, e);
    SecretNameIrrelevant(site, w.spec, e.secretName, "", begun.runID, out.nodes, out.jobs);
    SkippedNeedsFailed(RunFor(site, w, e), out.nodes, out.jobs);
  }

  lemma LostKeeps(site: Site, w: World, e: Event)
    requires Inv(site, w) && Works(w, e) && Unambiguous(site, w, e)
    ensures Inv(site, World(w.spec, w.st, Result(site, w, e).jobs))
  {
    if !AtRest(w.st) {
      WorkKeeps(site, w, e);
      WorkResult(site, w, e);
      SecretNameIrrelevant(site, w.spec, e.secretName, "", w.st.runID, w.st.nodes, PassFor(site, w, e).jobs);
    }
  }

  /** Events that do not run the workflow pass change no node and no Job. */
  lemma IdleResult(site: Site, w: World, e: Event)
    requires e.Reconciled? && Accepted(w.spec) && !Works(w, e)
    ensures var r := Result(site, w, e);
            && r.jobs == w.jobs && r.state.nodes == w.st.nodes
            && r.state.inputHash == w.st.inputHash && r.state.runID == w.st.runID
            && (r.state.phase == w.st.phase || (r.state.phase.Pending? && !IsTerminal(w.st.phase))
                || r.state.phase.Failed?)
  {
  }

  lemma ClusterKeeps(site: Site, w: World, jobs: Jobs)
    requires Inv(site, w) && (AtRest(w.st) || FinishedIsFinal(w.st, w.jobs, jobs))
    ensures Inv(site, w.(jobs := jobs))
  {
    if !AtRest(w.st) {
      var run, nodes := RunAt(site, w.spec, "", w.st.runID), w.st.nodes;
      forall i | 0 <= i < |nodes| ensures NodeInv(run, nodes[i], jobs) {
        assert NodeInv(run, nodes[i], w.jobs);
        assert nodes[i].jobName != "" ==> StaysFinal(w.jobs, jobs, nodes[i].jobName);
      }
    }
  }

  lemma StepKeeps(site: Site, w: World, e: Event, w': World)
    requires Inv(site, w) && Next(site, w, e, w') && Unambiguous(site, w, e)
    ensures Inv(site, w')
  {
    match e
    case ClusterMoves =>
      ClusterKeeps(site, w, w'.jobs);
      assert w' == w.(jobs := w'.jobs);
    case SpecEdited =>
    case Reconciled(_, _, _, written) =>
      if !Accepted(w.spec) {
        assert w' == w;
      } else if Works(w, e) {
        WrittenKeeps(site, w, e);
        LostKeeps(site, w, e);
        assert w' == World(w.spec, if written then Result(site, w, e).state else w.st, Result(site, w, e).jobs);
      } else {
        IdleResult(site, w, e);
      }
  }

  /** Over every interleaving, wherever passes fail and whatever status writes are lost. */
  lemma {:induction false} TraceKeeps(site: Site, ws: seq<World>, es: seq<Event>, k: nat)
    requires IsTrace(site, ws, es) && NoCollisions(site, ws, es) && Inv(site, ws[0]) && k < |ws|
    ensures Inv(site, ws[k])
  {
    if k > 0 {
      TraceKeeps(site, ws, es, k - 1);
      assert StepOf(site, ws, es, k - 1) && ClearStep(site, ws, es, k - 1);
      StepKeeps(site, ws[k - 1], es[k - 1], ws[k]);
    }
  }

  lemma FreshInv(site: Site, w: World)
    requires Fresh(w.st)
    ensures Inv(site, w)
  {
  }

  // ---- Safety over whole traces -------------------------------------------------------------

  /** Whole-run precedence safety: whenever a pass adds a Job to the cluster, also one whose
      creation is reported as failed, it is the Job of a node of the workflow, and at that moment
      every transitive dependency succeeded and has a complete Job there; under BestEffort every
      direct dependency was given a Job that has ended. */
  lemma PrecedenceSafety(site: Site, ws: seq<World>, es: seq<Event>, k: nat, key: string) returns (n: string)
    requires IsTrace(site, ws, es) && NoCollisions(site, ws, es) && Inv(site, ws[0]) && k < |es|
    requires es[k].Reconciled? && key in ws[k + 1].jobs && key !in ws[k].jobs
    ensures Works(ws[k], es[k])
    ensures n in JobNames(ws[k].spec.jobs) && key == RunFor(site, ws[k], es[k]).nameOf(n)
    ensures MayStart(RunFor(site, ws[k], es[k]), BegunState(ws[k], es[k]).nodes, ws[k].jobs, n)
  {
    var w, e := ws[k], es[k];
    TraceKeeps(site, ws, es, k);
    assert StepOf(site, ws, es, k);
    if !Works(w, e) && Accepted(w.spec) { IdleResult(site, w, e); }
    assert Works(w, e);
    WorkResult(site, w, e);
    BegunInv(site, w, e);
    n := NewJobMayStart(RunFor(site, w, e), BegunState(w, e).nodes, w.jobs, e.faults, key);
  }

  /** A stored workflow that succeeded ran every node to success: nothing was skipped. */
  lemma SuccessIsComplete(site: Site, ws: seq<World>, es: seq<Event>, k: nat)
    requires IsTrace(site, ws, es) && NoCollisions(site, ws, es) && Fresh(ws[0].st) && k < |ws|
    ensures ws[k].st.phase.Succeeded? ==> AllSucceeded(ws[k].st.nodes)
    ensures Any(ws[k].st.nodes, Skipped) ==> Any(ws[k].st.nodes, Failed)
  {
    FreshInv(site, ws[0]);
    TraceKeeps(site, ws, es, k);
  }

  /** Wherever a workflow pass ends, also on an error, a node has a Job name exactly when it is
      Running, Succeeded or Failed, the name is the node's own, every dependency of a node with a
      Job has finished, and a skipped node has its cause. */
  lemma EveryExitIsConsistent(site: Site, ws: seq<World>, es: seq<Event>, k: nat)
    requires IsTrace(site, ws, es) && NoCollisions(site, ws, es) && Inv(site, ws[0]) && k < |es| && Works(ws[k], es[k])
    ensures var run, r := RunFor(site, ws[k], es[k]), Result(site, ws[k], es[k]);
            && NodesInv(run, r.state.nodes, r.jobs)
            && Precedence(run.spec, r.state.nodes)
            && SkipCause(run.spec, r.state.nodes)
  {
    TraceKeeps(site, ws, es, k);
    assert ClearStep(site, ws, es, k);
    WorkKeeps(site, ws[k], es[k]);
    WorkResult(site, ws[k], es[k]);
  }
}
