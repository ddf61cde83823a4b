/** Progress and discipline over traces: how far a run can go, how many nodes run at once, when a
    new run begins, and what a finished run does. */
module RunProgress {
  import opened JobSecurity
  import opened WorkflowSpec
  import opened Workflow
  import opened RunInvariant
  import opened Passes
  import opened Replay
  import opened Runs
  import Naming

  // ---- Bounded progress ---------------------------------------------------------------------

  function Rank(p: Phase): nat {
    match p
    case Unset => 3
    case Pending => 3
    case Running => 2
    case Succeeded => 1
    case Failed => 0
    case Skipped => 0
  }

  /** A node moves on: a changed phase has a lower rank, and a Job name is never taken back. */
  predicate MovesOn(a: NodeState, b: NodeState) {
    && a.name == b.name
    && (a.phase != b.phase ==> Rank(b.phase) < Rank(a.phase))
    && (a.jobName != "" ==> b.jobName == a.jobName)
  }

  ghost predicate AllMoveOn(a: seq<NodeState>, b: seq<NodeState>) {
    |a| == |b| && forall i | 0 <= i < |a| :: MovesOn(a[i], b[i])
  }

  function RankSum(nodes: seq<NodeState>): nat {
    if nodes == [] then 0 else Rank(nodes[0].phase) + RankSum(nodes[1..])
  }

  lemma {:induction false} RankSumBound(nodes: seq<NodeState>)
    ensures RankSum(nodes) <= 3 * |nodes|
  {
    if nodes != [] { RankSumBound(nodes[1..]); }
  }

  ghost predicate SamePhases(a: seq<NodeState>, b: seq<NodeState>) {
    |a| == |b| && forall i | 0 <= i < |a| :: a[i].phase == b[i].phase
  }

  lemma {:induction false} RankSumFalls(a: seq<NodeState>, b: seq<NodeState>)
    requires AllMoveOn(a, b)
    ensures RankSum(b) <= RankSum(a)
    ensures !SamePhases(a, b) ==> RankSum(b) < RankSum(a)
  {
    if a != [] {
      assert MovesOn(a[0], b[0]);
      assert forall i | 0 <= i < |a[1..]| :: MovesOn(a[1..][i], b[1..][i]);
      RankSumFalls(a[1..], b[1..]);
      if a[0].phase == b[0].phase && SamePhases(a[1..], b[1..]) {
        assert forall i | 0 < i < |a| :: a[i] == a[1..][i - 1] && b[i] == b[1..][i - 1];
      }
    }
  }

  lemma ObservedMovesOn(run: Run, n: NodeState, jobs: Jobs)
    requires NodeInv(run, n, jobs)
    ensures MovesOn(n, Observed(n, jobs))
    ensures Observed(n, jobs).phase.Running? ==> n.phase.Running?
  {
  }

  /** Within a run the nodes only move on, on every exit of a pass. */
  lemma PassMovesOn(run: Run, nodes: seq<NodeState>, jobs: Jobs, faults: Faults)
    requires UniqueNames(nodes) && NodesInv(run, nodes, jobs)
    ensures AllMoveOn(nodes, NodePass(run, nodes, jobs, faults).nodes)
  {
    var out, k := NodePass(run, nodes, jobs, faults), FaultFrom(nodes, faults, 0);
    forall i | 0 <= i < |nodes| ensures MovesOn(nodes[i], out.nodes[i]) {
      ObservedMovesOn(run, nodes[i], jobs);
      if k == |nodes| { NodeMovesOn(run, nodes, jobs, faults, i); }
    }
  }

  lemma SettledMovesOn(run: Run, nodes: seq<NodeState>, jobs: Jobs, i: nat)
    requires i < |nodes| && NodeInv(run, nodes[i], jobs)
    ensures var n := Settled(run, nodes, jobs)[i];
            MovesOn(nodes[i], n) && (n.phase.Pending? ==> n == nodes[i] && n.jobName == "")
  {
    ObservedMovesOn(run, nodes[i], jobs);
    SettledShape(run, nodes, jobs);
    assert ObservedUpTo(nodes, jobs, |nodes|)[i] == Observed(nodes[i], jobs);
  }

  lemma NodeMovesOn(run: Run, nodes: seq<NodeState>, jobs: Jobs, faults: Faults, i: nat)
    requires UniqueNames(nodes) && FaultFrom(nodes, faults, 0) == |nodes| && i < |nodes|
    requires NodeInv(run, nodes[i], jobs)
    ensures MovesOn(nodes[i], NodePass(run, nodes, jobs, faults).nodes[i])
  {
    SettledMovesOn(run, nodes, jobs, i);
    PassSchedules(run, nodes, jobs, faults);
  }

  /** The pass begins a new run. */
  ghost predicate Begins(w: World, e: Event) {
    e.Reconciled? && Accepted(w.spec) && e.secretName != "" && e.input.Hashed? && Starts(w.st, e.input.hash)
  }

  /** The trace of one run: only its first pass may begin it, and is then stored. */
  ghost predicate OneRun(ws: seq<World>, es: seq<Event>)
    requires |ws| == |es| + 1
  {
    && (es != [] && Begins(ws[0], es[0]) ==> es[0].written)
    && forall k {:trigger Continues(ws, es, k)} | 1 <= k < |es| :: Continues(ws, es, k)
  }

  ghost predicate Continues(ws: seq<World>, es: seq<Event>, k: int)
    requires |ws| == |es| + 1 && 0 <= k < |es|
  {
    !Begins(ws[k], es[k])
  }

  /** The nodes of the run: where the first pass begins it, the run starts from the initial nodes. */
  ghost function NodesAt(ws: seq<World>, es: seq<Event>, k: nat): seq<NodeState>
    requires |ws| == |es| + 1 && k < |ws|
  {
    if k == 0 && es != [] && Begins(ws[0], es[0]) then InitialNodes(ws[0].spec) else ws[k].st.nodes
  }

  lemma WorkMovesOn(site: Site, w: World, e: Event)
    requires Inv(site, w) && Works(w, e)
    ensures AllMoveOn(BegunState(w, e).nodes, Result(site, w, e).state.nodes)
  {
    BegunInv(site, w, e);
    WorkResult(site, w, e);
    EnsuredNothing(w.spec.jobs, BegunState(w, e).nodes);
    PassMovesOn(RunFor(site, w, e), BegunState(w, e).nodes, w.jobs, e.faults);
  }

  lemma StepMovesOn(site: Site, w: World, e: Event, w': World)
    requires Inv(site, w) && Next(site, w, e, w') && !Begins(w, e)
    ensures AllMoveOn(w.st.nodes, w'.st.nodes)
  {
    if Works(w, e) {
      WorkMovesOn(site, w, e);
    } else if e.Reconciled? && Accepted(w.spec) {
      IdleResult(site, w, e);
    }
  }

  lemma TraceMovesOn(site: Site, ws: seq<World>, es: seq<Event>, k: nat)
    requires IsTrace(site, ws, es) && NoCollisions(site, ws, es) && Inv(site, ws[0]) && OneRun(ws, es) && k < |es|
    ensures AllMoveOn(NodesAt(ws, es, k), ws[k + 1].st.nodes)
  {
    TraceKeeps(site, ws, es, k);
    assert StepOf(site, ws, es, k);
    if Begins(ws[k], es[k]) {
      assert !Continues(ws, es, k);
      WorkMovesOn(site, ws[k], es[k]);
    } else {
      StepMovesOn(site, ws[k], es[k], ws[k + 1]);
    }
  }

  /** How many of the first `k` steps of a run change the phase of some node. */
  ghost function PhaseChanges(ws: seq<World>, es: seq<Event>, k: nat): nat
    requires |ws| == |es| + 1 && k < |ws|
  {
    if k == 0 then 0
    else PhaseChanges(ws, es, k - 1) + if SamePhases(NodesAt(ws, es, k - 1), NodesAt(ws, es, k)) then 0 else 1
  }

  /** Every change so far was paid for by the rank of the nodes. */
  ghost predicate RankPaid(ws: seq<World>, es: seq<Event>, k: nat)
    requires |ws| == |es| + 1 && k < |ws|
  {
    PhaseChanges(ws, es, k) + RankSum(NodesAt(ws, es, k)) <= RankSum(NodesAt(ws, es, 0))
  }

  lemma RankPaidStep(site: Site, ws: seq<World>, es: seq<Event>, k: nat)
    requires IsTrace(site, ws, es) && NoCollisions(site, ws, es) && Inv(site, ws[0]) && OneRun(ws, es) && k < |es|
    requires RankPaid(ws, es, k)
    ensures RankPaid(ws, es, k + 1)
  {
    TraceMovesOn(site, ws, es, k);
    RankSumFalls(NodesAt(ws, es, k), NodesAt(ws, es, k + 1));
  }

  lemma {:induction false} RankPaysForChanges(site: Site, ws: seq<World>, es: seq<Event>, k: nat)
    requires IsTrace(site, ws, es) && NoCollisions(site, ws, es) && Inv(site, ws[0]) && OneRun(ws, es) && k < |ws|
    ensures RankPaid(ws, es, k)
  {
    if k > 0 {
      RankPaysForChanges(site, ws, es, k - 1);
      RankPaidStep(site, ws, es, k - 1);
    }
  }

  /** A run of n nodes changes a phase in at most 3n steps, over any interleaving, from the pass
      that begins it or from any later point. */
  lemma BoundedProgress(site: Site, ws: seq<World>, es: seq<Event>)
    requires IsTrace(site, ws, es) && NoCollisions(site, ws, es) && Inv(site, ws[0]) && OneRun(ws, es)
    ensures PhaseChanges(ws, es, |es|) <= 3 * |NodesAt(ws, es, 0)|
  {
    RankPaysForChanges(site, ws, es, |es|);
    RankSumBound(NodesAt(ws, es, 0));
  }

  lemma MovesOnTransitive(a: seq<NodeState>, b: seq<NodeState>, c: seq<NodeState>)
    requires AllMoveOn(a, b) && AllMoveOn(b, c)
    ensures AllMoveOn(a, c)
  {
    forall i | 0 <= i < |a| ensures MovesOn(a[i], c[i]) {
      assert MovesOn(a[i], b[i]) && MovesOn(b[i], c[i]);
    }
  }

  /** Between any two points of a run every node has only moved on: none returns to Pending, none
      is retried, no Job name is cleared. */
  lemma {:induction false} RunMovesOn(site: Site, ws: seq<World>, es: seq<Event>, a: nat, b: nat)
    requires IsTrace(site, ws, es) && NoCollisions(site, ws, es) && Inv(site, ws[0]) && OneRun(ws, es)
    requires a <= b < |ws|
    ensures AllMoveOn(NodesAt(ws, es, a), NodesAt(ws, es, b))
    decreases b
  {
    if a < b {
      RunMovesOn(site, ws, es, a, b - 1);
      TraceMovesOn(site, ws, es, b - 1);
      MovesOnTransitive(NodesAt(ws, es, a), NodesAt(ws, es, b - 1), NodesAt(ws, es, b));
    }
  }

  /** The Job of a node that has one is not created again by a pass. */
  lemma TrackedNotCreated(run: Run, nodes: seq<NodeState>, jobs: Jobs, faults: Faults, i: nat)
    requires RunInv(run, nodes, jobs) && DistinctNames(run, NodeNames(nodes)) && i < |nodes| && nodes[i].jobName != ""
    requires nodes[i].jobName in RunPass(run, nodes, jobs, faults).jobs
    ensures nodes[i].jobName in jobs
  {
    if nodes[i].jobName !in jobs {
      var n := NewJobMayStart(run, nodes, jobs, faults, nodes[i].jobName);
      TrackedNotRunnable(run, nodes, jobs, i, n);
    }
  }

  /** The node a stored Job name belongs to is not runnable. */
  lemma TrackedNotRunnable(run: Run, nodes: seq<NodeState>, jobs: Jobs, i: nat, n: string)
    requires RunInv(run, nodes, jobs) && DistinctNames(run, NodeNames(nodes)) && n in NodeNames(nodes)
    requires i < |nodes| && nodes[i].jobName != "" && nodes[i].jobName == run.nameOf(n)
    ensures n !in Runnable(run.spec.failurePolicy, Settled(run, nodes, jobs), Deps(run.spec))
  {
    assert NodeInv(run, nodes[i], jobs);
    assert nodes[i].name in NodeNames(nodes);
    JobMeansNotPending(run, nodes, jobs, i);
    SameNamesMatch(run.spec, nodes, Settled(run, nodes, jobs));
    RunnableMember(run.spec.failurePolicy, Settled(run, nodes, jobs), Deps(run.spec), i);
  }

  /** Once the stored status tracks the Job of a node, no later pass of the run creates that Job,
      not even after it was deleted. */
  lemma NoSecondJob(site: Site, ws: seq<World>, es: seq<Event>, a: nat, b: nat, i: nat)
    requires IsTrace(site, ws, es) && NoCollisions(site, ws, es) && Inv(site, ws[0]) && OneRun(ws, es)
    requires a <= b < |es| && es[b].Reconciled?
    requires i < |NodesAt(ws, es, a)| && NodesAt(ws, es, a)[i].jobName != ""
    ensures NodesAt(ws, es, a)[i].jobName in ws[b + 1].jobs ==> NodesAt(ws, es, a)[i].jobName in ws[b].jobs
  {
    var w, e, name := ws[b], es[b], NodesAt(ws, es, a)[i].jobName;
    RunMovesOn(site, ws, es, a, b);
    assert MovesOn(NodesAt(ws, es, a)[i], NodesAt(ws, es, b)[i]);
    TraceKeeps(site, ws, es, b);
    assert StepOf(site, ws, es, b) && ClearStep(site, ws, es, b) && Continues(ws, es, b);
    if Works(w, e) {
      BegunInv(site, w, e);
      WorkResult(site, w, e);
      if name in ws[b + 1].jobs { TrackedNotCreated(RunFor(site, w, e), w.st.nodes, w.jobs, e.faults, i); }
    } else if Accepted(w.spec) {
      IdleResult(site, w, e);
    }
  }

  /** A Job that was there and is gone was removed by the cluster: passes never delete, so a Job
      of the same name can be created twice only if it was deleted in between. */
  lemma {:induction false} OnlyClusterDeletes(site: Site, ws: seq<World>, es: seq<Event>, a: nat, b: nat, key: string)
    returns (k: nat)
    requires IsTrace(site, ws, es) && a <= b < |ws| && key in ws[a].jobs && key !in ws[b].jobs
    ensures a <= k < b && es[k].ClusterMoves? && key in ws[k].jobs && key !in ws[k + 1].jobs
    decreases b
  {
    var w, e := ws[b - 1], es[b - 1];
    assert StepOf(site, ws, es, b - 1);
    if key in w.jobs {
      k := b - 1;
      if e.Reconciled? {
        CertPassGrows(ContextOf(site, w.spec), Certificate(site.namespace, site.cert, e.secretName), e.input, w.st,
                      w.jobs, e.faults);
      }
    } else {
      k := OnlyClusterDeletes(site, ws, es, a, b - 1, key);
    }
  }

  // ---- When runs begin ----------------------------------------------------------------------

  /** The stored input hash changes only from empty or from a finished run, to another hash, and
      to the one computed in that pass; the run identifier changes with it. */
  lemma HashChanges(site: Site, w: World, e: Event, w': World)
    requires Next(site, w, e, w')
    ensures w'.st.inputHash != w.st.inputHash || w'.st.runID != w.st.runID ==>
              && Begins(w, e) && e.written && AtRest(w.st)
    ensures Begins(w, e) && e.written ==>
              && w'.st.inputHash == e.input.hash
              && w'.st.runID == Naming.ShortHash(e.input.hash, Naming.SUFFIX)
              && (w.st.inputHash == "" || w.st.inputHash != e.input.hash)
  {
    if Works(w, e) {
      WorkResult(site, w, e);
    } else if e.Reconciled? && Accepted(w.spec) {
      IdleResult(site, w, e);
    }
  }

  /** The hashes of the runs the first `k` steps of a trace started, oldest first. */
  ghost function StartedHashes(ws: seq<World>, es: seq<Event>, k: nat): seq<string>
    requires |ws| == |es| + 1 && k < |ws|
  {
    if k == 0 then []
    else
      var e := es[k - 1];
      StartedHashes(ws, es, k - 1) + if Begins(ws[k - 1], e) && e.written then [e.input.hash] else []
  }

  ghost predicate RealHashes(es: seq<Event>) {
    forall k | 0 <= k < |es| && es[k].Reconciled? && es[k].input.Hashed? :: es[k].input.hash != ""
  }

  /** The stored hash is the one started last, the run identifier is its twelve-character prefix,
      and two runs in a row never have the same input. */
  ghost predicate Disciplined(hs: seq<string>, st: ExecState) {
    && st.inputHash == (if hs == [] then "" else hs[|hs| - 1])
    && st.runID == Naming.ShortHash(st.inputHash, Naming.SUFFIX)
    && (forall i | 0 <= i < |hs| :: hs[i] != "")
    && (forall i | 0 <= i < |hs| - 1 :: hs[i] != hs[i + 1])
  }

  lemma DisciplineStep(hs: seq<string>, st: ExecState, hash: string, st': ExecState)
    requires Disciplined(hs, st) && hash != "" && (st.inputHash == "" || st.inputHash != hash)
    requires st'.inputHash == hash && st'.runID == Naming.ShortHash(hash, Naming.SUFFIX)
    ensures Disciplined(hs + [hash], st')
  {
  }

  /** The discipline holds after `k` steps. */
  ghost predicate DisciplinedAt(ws: seq<World>, es: seq<Event>, k: nat)
    requires |ws| == |es| + 1 && k < |ws|
  {
    Disciplined(StartedHashes(ws, es, k), ws[k].st)
  }

  lemma NextHashes(ws: seq<World>, es: seq<Event>, k: nat)
    requires |ws| == |es| + 1 && k < |es|
    ensures var hs := StartedHashes(ws, es, k);
            StartedHashes(ws, es, k + 1)
            == if Begins(ws[k], es[k]) && es[k].written then hs + [es[k].input.hash] else hs
  {
  }

  lemma DisciplineNext(site: Site, ws: seq<World>, es: seq<Event>, k: nat)
    requires IsTrace(site, ws, es) && RealHashes(es) && k < |es| && DisciplinedAt(ws, es, k)
    ensures DisciplinedAt(ws, es, k + 1)
  {
    TraceHashChanges(site, ws, es, k);
    NextHashes(ws, es, k);
    if Begins(ws[k], es[k]) && es[k].written {
      DisciplineStep(StartedHashes(ws, es, k), ws[k].st, es[k].input.hash, ws[k + 1].st);
    }
  }

  /** Run discipline over any trace, with no assumption on the cluster or on collisions. */
  lemma {:induction false} RunDiscipline(site: Site, ws: seq<World>, es: seq<Event>, k: nat)
    requires IsTrace(site, ws, es) && Fresh(ws[0].st) && RealHashes(es) && k < |ws|
    ensures DisciplinedAt(ws, es, k)
  {
    if k > 0 {
      RunDiscipline(site, ws, es, k - 1);
      DisciplineNext(site, ws, es, k - 1);
    }
  }

  lemma TraceHashChanges(site: Site, ws: seq<World>, es: seq<Event>, k: nat)
    requires IsTrace(site, ws, es) && k < |es|
    ensures var w, e, st := ws[k], es[k], ws[k + 1].st;
            if Begins(w, e) && e.written
            then st.inputHash == e.input.hash && st.runID == Naming.ShortHash(e.input.hash, Naming.SUFFIX)
                 && (w.st.inputHash == "" || w.st.inputHash != e.input.hash)
            else st.inputHash == w.st.inputHash && st.runID == w.st.runID
  {
    assert StepOf(site, ws, es, k);
    HashChanges(site, ws[k], es[k], ws[k + 1]);
  }

  // ---- Finished runs ------------------------------------------------------------------------

  /** The pass brings no new input to a finished run. */
  ghost predicate NothingNew(w: World, e: Event) {
    e.Reconciled? ==> e.secretName != "" && (e.input.Hashed? ==> e.input.hash == w.st.inputHash)
  }

  /** A finished run is a fixed point: with the same hash, an unreadable Secret or a hash that
      cannot be computed, any number of passes leave its state as it is and create no Job. */
  lemma {:induction false} FinishedIsFixed(site: Site, ws: seq<World>, es: seq<Event>, k: nat)
    requires IsTrace(site, ws, es) && k < |ws|
    requires ws[0].st.inputHash != "" && IsTerminal(ws[0].st.phase)
    requires forall j | 0 <= j < |es| :: NothingNew(World(ws[j].spec, ws[0].st, ws[j].jobs), es[j])
    ensures ws[k].st == ws[0].st
    ensures k < |es| && es[k].Reconciled? ==> ws[k + 1].jobs == ws[k].jobs
  {
    if k > 0 {
      FinishedIsFixed(site, ws, es, k - 1);
      assert StepOf(site, ws, es, k - 1);
      assert NothingNew(World(ws[k - 1].spec, ws[0].st, ws[k - 1].jobs), es[k - 1]);
    }
    if k < |es| {
      assert StepOf(site, ws, es, k);
      assert NothingNew(World(ws[k].spec, ws[0].st, ws[k].jobs), es[k]);
    }
  }

  /** One failed node ends the run with the pass that sees it. */
  lemma FailureEndsRun(site: Site, w: World, e: Event)
    requires Works(w, e) && !PassFor(site, w, e).err && Any(PassFor(site, w, e).nodes, Failed)
    ensures Result(site, w, e).state.phase.Failed?
  {
    WorkResult(site, w, e);
  }

  lemma TraceSuffix(site: Site, ws: seq<World>, es: seq<Event>)
    requires IsTrace(site, ws, es) && |es| > 0
    ensures IsTrace(site, ws[1..], es[1..])
  {
    var v, d := ws[1..], es[1..];
    forall k | 0 <= k < |d| ensures StepOf(site, v, d, k) {
      assert StepOf(site, ws, es, k + 1);
      assert v[k] == ws[k + 1] && d[k] == es[k + 1] && v[k + 1] == ws[k + 2];
    }
  }

  /** What becomes of the nodes still pending when a failure is seen: the run is over with that
      pass, so until there is new input they stay as that pass left them, and none is left pending
      exactly if the pass could start them all. */
  lemma AfterFailure(site: Site, ws: seq<World>, es: seq<Event>, k: nat)
    requires IsTrace(site, ws, es) && 1 <= k < |ws|
    requires Works(ws[0], es[0]) && es[0].written && es[0].input.hash != ""
    requires UniqueNames(Ensured(ws[0].spec.jobs, BegunState(ws[0], es[0]).nodes))
    requires !PassFor(site, ws[0], es[0]).err && Any(PassFor(site, ws[0], es[0]).nodes, Failed)
    requires forall j | 1 <= j < |es| :: NothingNew(World(ws[j].spec, ws[1].st, ws[j].jobs), es[j])
    ensures ws[k].st == ws[1].st && ws[k].st.phase.Failed?
    ensures var run, nodes := RunFor(site, ws[0], es[0]), Ensured(ws[0].spec.jobs, BegunState(ws[0], es[0]).nodes);
            !Any(ws[k].st.nodes, Pending)
            <==> AllFit(run.spec.failurePolicy, Settled(run, nodes, ws[0].jobs), Deps(run.spec),
                        Slots(run, nodes, ws[0].jobs))
  {
    assert StepOf(site, ws, es, 0);
    WorkResult(site, ws[0], es[0]);
    FailureEndsRun(site, ws[0], es[0]);
    BranchesContinueIff(RunFor(site, ws[0], es[0]), Ensured(ws[0].spec.jobs, BegunState(ws[0], es[0]).nodes),
                        ws[0].jobs, es[0].faults);
    TraceSuffix(site, ws, es);
    forall j | 0 <= j < |es[1..]|
      ensures NothingNew(World(ws[1..][j].spec, ws[1..][0].st, ws[1..][j].jobs), es[1..][j])
    {
      assert NothingNew(World(ws[j + 1].spec, ws[1].st, ws[j + 1].jobs), es[j + 1]);
    }
    FinishedIsFixed(site, ws[1..], es[1..], k - 1);
  }

  // ---- What the cluster is given ------------------------------------------------------------

  lemma {:induction false} TemplateIsPermitted(jobs: seq<JobTemplate>, node: string)
    requires GoodJobs(jobs)
    ensures Permitted(TemplateOf(jobs, node))
  {
    if jobs != [] {
      LastJob(jobs);
      assert GoodTemplate(jobs[|jobs| - 1]);
      TemplateIsPermitted(jobs[..|jobs| - 1], node);
    }
  }

  /** Every Job built for an accepted spec is hardened and mounts the Secret, also for a node whose
      template is gone. */
  lemma NewJobIsHardened(spec: Spec, secretName: string, node: string)
    requires GoodJobs(spec.jobs)
    ensures Hardened(NewJob(spec, secretName, node).spec)
    ensures secretName != "" ==> MountsSecret(NewJob(spec, secretName, node).spec, secretName)
  {
    TemplateIsPermitted(spec.jobs, node);
    var t := TemplateOf(spec.jobs, node);
    var labelled := t.(podLabels := t.podLabels + RESERVED_LABELS);
    HardenedIffPermitted(labelled, TTL(spec));
    InjectionKeepsHardening(Defaulted(labelled, TTL(spec)), secretName);
  }

  /** Every Job a pass adds to the cluster, in any trace and with no assumption, is hardened and
      gives its containers the certificate's Secret. */
  lemma CreatedJobsAreHardened(site: Site, ws: seq<World>, es: seq<Event>, k: nat, key: string)
    requires IsTrace(site, ws, es) && k < |es|
    requires es[k].Reconciled? && key in ws[k + 1].jobs && key !in ws[k].jobs
    ensures Hardened(ws[k + 1].jobs[key].spec) && MountsSecret(ws[k + 1].jobs[key].spec, es[k].secretName)
    ensures var built := ws[k + 1].jobs[key].spec;
            forall v {:trigger Violates(built, v)} :: !Violates(built, v)
  {
    var w, e := ws[k], es[k];
    assert StepOf(site, ws, es, k);
    if !Works(w, e) && Accepted(w.spec) { IdleResult(site, w, e); }
    assert Works(w, e);
    WorkResult(site, w, e);
    var run, nodes := RunFor(site, w, e), Ensured(w.spec.jobs, BegunState(w, e).nodes);
    CreatedShape(run, nodes, w.jobs, e.faults);
    var out := NodePass(run, nodes, w.jobs, e.faults);
    assert MadeFor(run, out.created, key, out.jobs[key]);
    var n :| n in out.created && key == run.nameOf(n) && out.jobs[key] == run.newJob(n);
    NewJobIsHardened(w.spec, e.secretName, n);
    PermittedIff(out.jobs[key].spec);
  }
}
