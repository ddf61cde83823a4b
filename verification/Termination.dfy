/** Runs end: after enough passes that go well the workflow is Succeeded or Failed, whatever happens
    in between, and Succeeded if no Job is lost or breaks. */
module Termination {
  import opened DependencyGraph
  import opened WorkflowSpec
  import opened Workflow
  import opened RunInvariant
  import opened Passes
  import opened Replay
  import opened Runs
  import opened RunProgress

  // ---- One pass -----------------------------------------------------------------------------

  /** No Job of a running node is still at work. */
  ghost predicate Quiet(nodes: seq<NodeState>, jobs: Jobs) {
    forall i | 0 <= i < |nodes| && nodes[i].phase.Running? && nodes[i].jobName in jobs ::
      jobs[nodes[i].jobName].complete || jobs[nodes[i].jobName].failed
  }

  /** A running node whose Job is no longer at work does not stay running. */
  lemma QuietNodeStops(run: Run, nodes: seq<NodeState>, jobs: Jobs, i: nat)
    requires UniqueNames(nodes) && NodesInv(run, nodes, jobs) && Quiet(nodes, jobs) && i < |nodes|
             && nodes[i].phase.Running?
    ensures !NodePass(run, nodes, jobs, NO_FAULTS).nodes[i].phase.Running?
  {
    assert NodeInv(run, nodes[i], jobs);
    assert FaultFrom(nodes, NO_FAULTS, 0) == |nodes|;
    SettledRunning(run, nodes, jobs, i);
    JobMeansNotPending(run, nodes, jobs, i);
    PassSchedules(run, nodes, jobs, NO_FAULTS);
  }

  /** Nodes that move on become neither pending nor unknown. */
  lemma PendingShrinks(a: seq<NodeState>, b: seq<NodeState>)
    requires AllMoveOn(a, b)
    ensures PendingSet(b) <= PendingSet(a) && |PendingSet(b)| <= |PendingSet(a)|
    ensures !Any(a, Unset) ==> !Any(b, Unset)
  {
    forall i | 0 <= i < |a| ensures b[i].phase.Pending? ==> a[i].phase.Pending?
      ensures b[i].phase == Unset ==> a[i].phase == Unset
    {
      assert MovesOn(a[i], b[i]);
    }
    SubsetCount(PendingSet(b), PendingSet(a));
  }

  /** A node that runs and did not run before was pending. */
  lemma NewlyRunning(a: seq<NodeState>, b: seq<NodeState>, i: nat)
    requires AllMoveOn(a, b) && !Any(a, Unset) && i < |a| && b[i].phase.Running? && !a[i].phase.Running?
    ensures |PendingSet(b)| < |PendingSet(a)|
  {
    PendingShrinks(a, b);
    assert MovesOn(a[i], b[i]) && a[i].phase != Unset;
    assert i in PendingSet(a) && PendingSet(b) <= PendingSet(a) - {i as int};
    SubsetCount(PendingSet(b), PendingSet(a) - {i as int});
  }

  lemma NothingUnset(run: Run, nodes: seq<NodeState>, jobs: Jobs)
    requires NodesInv(run, nodes, jobs)
    ensures !Any(nodes, Unset)
  {
    forall i | 0 <= i < |nodes| ensures nodes[i].phase != Unset { assert NodeInv(run, nodes[i], jobs); }
  }

  /** A pass without faults over finished Jobs ends the run or starts a pending node. */
  lemma PassAdvances(run: Run, nodes: seq<NodeState>, jobs: Jobs)
    requires RunInv(run, nodes, jobs) && Quiet(nodes, jobs)
    ensures var out := NodePass(run, nodes, jobs, NO_FAULTS);
            !out.err && (IsTerminal(Derived(out.nodes)) || |PendingSet(out.nodes)| < |PendingSet(nodes)|)
  {
    var out := NodePass(run, nodes, jobs, NO_FAULTS);
    UndisturbedShape(run, nodes, jobs);
    PassMovesOn(run, nodes, jobs, NO_FAULTS);
    PendingShrinks(nodes, out.nodes);
    NothingUnset(run, nodes, jobs);
    if !IsTerminal(Derived(out.nodes)) {
      PassNeverStalls(run, nodes, jobs, NO_FAULTS);
      var i :| 0 <= i < |out.nodes| && out.nodes[i].phase == Running;
      if nodes[i].phase.Running? { QuietNodeStops(run, nodes, jobs, i); }
      NewlyRunning(nodes, out.nodes, i);
    }
  }

  // ---- Enough good passes end the run -------------------------------------------------------

  /** A pass that goes well: nothing fails, the status is stored, and no Job is still at work. */
  ghost predicate GoodPass(w: World, e: Event) {
    && e.Reconciled? && Accepted(w.spec) && e.secretName != "" && e.input.Hashed? && e.faults == NO_FAULTS && e.written
    && Quiet(BegunState(w, e).nodes, w.jobs)
  }

  /** How many of the first `k` events are good passes. */
  ghost function GoodCount(ws: seq<World>, es: seq<Event>, k: nat): nat
    requires |ws| == |es| + 1 && k < |ws|
  {
    if k == 0 then 0 else GoodCount(ws, es, k - 1) + if GoodPass(ws[k - 1], es[k - 1]) then 1 else 0
  }

  lemma GoodStep(site: Site, w: World, e: Event, w': World)
    requires Inv(site, w) && Next(site, w, e, w') && GoodPass(w, e)
    ensures IsTerminal(w'.st.phase) || |PendingSet(w'.st.nodes)| < |PendingSet(BegunState(w, e).nodes)|
  {
    if Works(w, e) {
      BegunInv(site, w, e);
      WorkResult(site, w, e);
      EnsuredNothing(w.spec.jobs, BegunState(w, e).nodes);
      PassAdvances(RunFor(site, w, e), BegunState(w, e).nodes, w.jobs);
    }
  }

  lemma EndedStaysEnded(site: Site, w: World, e: Event, w': World)
    requires Next(site, w, e, w') && !Begins(w, e) && IsTerminal(w.st.phase)
    ensures IsTerminal(w'.st.phase)
  {
  }

  /** The run has ended after `k` steps. */
  ghost predicate Ended(ws: seq<World>, es: seq<Event>, k: nat)
    requires |ws| == |es| + 1 && k < |ws|
  {
    IsTerminal(ws[k].st.phase) && !(k == 0 && es != [] && Begins(ws[0], es[0]))
  }

  /** How many nodes are pending after `k` steps. */
  ghost function Waiting(ws: seq<World>, es: seq<Event>, k: nat): nat
    requires |ws| == |es| + 1 && k < |ws|
  {
    |PendingSet(NodesAt(ws, es, k))|
  }

  lemma TraceStep(site: Site, ws: seq<World>, es: seq<Event>, k: nat)
    requires IsTrace(site, ws, es) && NoCollisions(site, ws, es) && Inv(site, ws[0]) && OneRun(ws, es) && k < |es|
    ensures Ended(ws, es, k) ==> Ended(ws, es, k + 1)
    ensures Waiting(ws, es, k + 1) <= Waiting(ws, es, k)
    ensures GoodPass(ws[k], es[k]) ==> Ended(ws, es, k + 1) || Waiting(ws, es, k + 1) < Waiting(ws, es, k)
  {
    TraceKeeps(site, ws, es, k);
    TraceMovesOn(site, ws, es, k);
    PendingShrinks(NodesAt(ws, es, k), ws[k + 1].st.nodes);
    assert StepOf(site, ws, es, k);
    if k > 0 { assert Continues(ws, es, k); }
    if GoodPass(ws[k], es[k]) { GoodStep(site, ws[k], es[k], ws[k + 1]); }
    if Ended(ws, es, k) { EndedStaysEnded(site, ws[k], es[k], ws[k + 1]); }
  }

  /** Until the run ends every good pass was paid for by a pending node. */
  ghost predicate Paid(ws: seq<World>, es: seq<Event>, k: nat)
    requires |ws| == |es| + 1 && k < |ws|
  {
    Ended(ws, es, k) || GoodCount(ws, es, k) + Waiting(ws, es, k) <= Waiting(ws, es, 0)
  }

  lemma PaidStep(site: Site, ws: seq<World>, es: seq<Event>, k: nat)
    requires IsTrace(site, ws, es) && NoCollisions(site, ws, es) && Inv(site, ws[0]) && OneRun(ws, es) && k < |es|
    requires Paid(ws, es, k)
    ensures Paid(ws, es, k + 1)
  {
    TraceStep(site, ws, es, k);
    assert GoodCount(ws, es, k + 1) == GoodCount(ws, es, k) + if GoodPass(ws[k], es[k]) then 1 else 0;
  }

  lemma {:induction false} PendingPays(site: Site, ws: seq<World>, es: seq<Event>, k: nat)
    requires IsTrace(site, ws, es) && NoCollisions(site, ws, es) && Inv(site, ws[0]) && OneRun(ws, es) && k < |ws|
    ensures Paid(ws, es, k)
  {
    if k > 0 {
      PendingPays(site, ws, es, k - 1);
      PaidStep(site, ws, es, k - 1);
    }
  }

  lemma {:induction false} PendingBound(nodes: seq<NodeState>)
    ensures |PendingSet(nodes)| <= |nodes|
  {
    if nodes != [] {
      var n := |nodes| - 1;
      PendingBound(nodes[..n]);
      assert PendingSet(nodes) == PendingSet(nodes[..n]) + if nodes[n].phase.Pending? then {n} else {};
    }
  }

  /** Termination: a run of n nodes is Succeeded or Failed once n + 1 passes went well, the one that
      begins it included. What happens between them does not matter: passes that fail anywhere,
      lose their status write or come too early, and moves of the cluster. */
  lemma RunTerminates(site: Site, ws: seq<World>, es: seq<Event>)
    requires IsTrace(site, ws, es) && NoCollisions(site, ws, es) && Inv(site, ws[0]) && OneRun(ws, es)
    requires GoodCount(ws, es, |es|) > |NodesAt(ws, es, 0)|
    ensures IsTerminal(ws[|es|].st.phase)
  {
    PendingPays(site, ws, es, |es|);
    PendingBound(NodesAt(ws, es, 0));
  }

  // ---- With healthy Jobs it succeeds --------------------------------------------------------

  /** Every tracked Job is there and has not failed. */
  ghost predicate AllWell(nodes: seq<NodeState>, jobs: Jobs) {
    forall i | 0 <= i < |nodes| && nodes[i].jobName != "" ::
      nodes[i].jobName in jobs && !IsBroken(jobs[nodes[i].jobName])
  }

  lemma SettledStaysWell(run: Run, nodes: seq<NodeState>, jobs: Jobs, i: nat)
    requires AllWell(nodes, jobs) && i < |nodes| && !nodes[i].phase.Failed?
    ensures !Observed(nodes[i], jobs).phase.Failed? && !Settled(run, nodes, jobs)[i].phase.Failed?
  {
    assert nodes[i].jobName != "" ==> nodes[i].jobName in jobs && !IsBroken(jobs[nodes[i].jobName]);
    SettledShape(run, nodes, jobs);
    assert ObservedUpTo(nodes, jobs, |nodes|)[i] == Observed(nodes[i], jobs);
  }

  lemma NodeStaysWell(run: Run, nodes: seq<NodeState>, jobs: Jobs, faults: Faults, i: nat)
    requires UniqueNames(nodes) && AllWell(nodes, jobs) && i < |nodes| && !nodes[i].phase.Failed?
    ensures !NodePass(run, nodes, jobs, faults).nodes[i].phase.Failed?
  {
    SettledStaysWell(run, nodes, jobs, i);
    if FaultFrom(nodes, faults, 0) == |nodes| {
      PassSchedules(run, nodes, jobs, faults);
    }
  }

  lemma PassStaysWell(run: Run, nodes: seq<NodeState>, jobs: Jobs, faults: Faults)
    requires UniqueNames(nodes) && AllWell(nodes, jobs) && !Any(nodes, Failed)
    ensures !Any(NodePass(run, nodes, jobs, faults).nodes, Failed)
  {
    forall i | 0 <= i < |nodes| ensures NodePass(run, nodes, jobs, faults).nodes[i].phase != Failed {
      assert nodes[i].phase != Failed;
      NodeStaysWell(run, nodes, jobs, faults, i);
    }
  }

  lemma ConcludedWell(begun: ExecState, out: PassOut)
    requires !Any(out.nodes, Failed)
    ensures var st := Concluded(begun, out).state;
            !Any(st.nodes, Failed) && (IsTerminal(st.phase) ==> st.phase.Succeeded?)
  {
  }

  /** The certificate names a Secret, and no Job the run tracks is missing or has failed. */
  ghost predicate WellAt(ws: seq<World>, es: seq<Event>, k: int)
    requires |ws| == |es| + 1 && 0 <= k < |es|
  {
    && (es[k].Reconciled? ==> es[k].secretName != "")
    && (Works(ws[k], es[k]) ==> AllWell(BegunState(ws[k], es[k]).nodes, ws[k].jobs))
  }

  ghost predicate AlwaysWell(ws: seq<World>, es: seq<Event>)
    requires |ws| == |es| + 1
  {
    forall k {:trigger WellAt(ws, es, k)} | 0 <= k < |es| :: WellAt(ws, es, k)
  }

  ghost predicate NotFailed(ws: seq<World>, es: seq<Event>, k: nat)
    requires |ws| == |es| + 1 && k < |ws|
  {
    !Any(NodesAt(ws, es, k), Failed) && (Ended(ws, es, k) ==> ws[k].st.phase.Succeeded?)
  }

  lemma WellWork(site: Site, w: World, e: Event)
    requires Inv(site, w) && Works(w, e) && AllWell(BegunState(w, e).nodes, w.jobs)
             && !Any(BegunState(w, e).nodes, Failed)
    ensures var st := Result(site, w, e).state;
            !Any(st.nodes, Failed) && (IsTerminal(st.phase) ==> st.phase.Succeeded?)
  {
    BegunInv(site, w, e);
    WorkResult(site, w, e);
    EnsuredNothing(w.spec.jobs, BegunState(w, e).nodes);
    PassStaysWell(RunFor(site, w, e), BegunState(w, e).nodes, w.jobs, e.faults);
    ConcludedWell(BegunState(w, e), PassFor(site, w, e));
  }

  lemma WellStep(site: Site, ws: seq<World>, es: seq<Event>, k: nat)
    requires IsTrace(site, ws, es) && NoCollisions(site, ws, es) && Inv(site, ws[0]) && OneRun(ws, es) && k < |es|
    requires WellAt(ws, es, k) && NotFailed(ws, es, k)
    ensures NotFailed(ws, es, k + 1)
  {
    TraceKeeps(site, ws, es, k);
    assert StepOf(site, ws, es, k);
    if k > 0 { assert Continues(ws, es, k); }
    if Works(ws[k], es[k]) {
      WellWork(site, ws[k], es[k]);
    } else if es[k].Reconciled? && Accepted(ws[k].spec) {
      IdleResult(site, ws[k], es[k]);
    }
  }

  lemma {:induction false} StaysWell(site: Site, ws: seq<World>, es: seq<Event>, k: nat)
    requires IsTrace(site, ws, es) && NoCollisions(site, ws, es) && Inv(site, ws[0]) && OneRun(ws, es) && k < |ws|
    requires AlwaysWell(ws, es) && NotFailed(ws, es, 0)
    ensures NotFailed(ws, es, k)
  {
    if k > 0 {
      StaysWell(site, ws, es, k - 1);
      assert WellAt(ws, es, k - 1);
      WellStep(site, ws, es, k - 1);
    }
  }

  /** A run none of whose Jobs is found missing or failed never fails, and after n + 1 good passes it
      has succeeded with every node succeeded. */
  lemma RunSucceeds(site: Site, ws: seq<World>, es: seq<Event>)
    requires IsTrace(site, ws, es) && NoCollisions(site, ws, es) && Inv(site, ws[0]) && OneRun(ws, es)
    requires AlwaysWell(ws, es) && NotFailed(ws, es, 0)
    ensures IsTerminal(ws[|es|].st.phase) && es != [] ==> ws[|es|].st.phase.Succeeded?
    ensures GoodCount(ws, es, |es|) > |NodesAt(ws, es, 0)| ==>
              ws[|es|].st.phase.Succeeded? && AllSucceeded(ws[|es|].st.nodes)
  {
    StaysWell(site, ws, es, |es|);
    TraceKeeps(site, ws, es, |es|);
    if GoodCount(ws, es, |es|) > |NodesAt(ws, es, 0)| { RunTerminates(site, ws, es); }
  }

  /** A run that begins with the trace has nothing failed to start from. */
  lemma BegunNotFailed(ws: seq<World>, es: seq<Event>)
    requires |ws| == |es| + 1 && es != [] && Begins(ws[0], es[0])
    ensures NotFailed(ws, es, 0)
    ensures |NodesAt(ws, es, 0)| == |JobNames(ws[0].spec.jobs)|
  {
  }
}
