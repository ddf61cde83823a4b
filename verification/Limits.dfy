/** How many nodes of a run are recorded as running at once, over whole traces. */
module Limits {
  import opened DependencyGraph
  import opened WorkflowSpec
  import opened Workflow
  import opened RunInvariant
  import opened Passes
  import opened Runs
  import opened RunProgress

  ghost predicate FitsLimit(w: World) {
    AtRest(w.st) || |RunningSet(w.st.nodes)| <= Parallelism(w.spec)
  }

  lemma ActiveAreRunning(run: Run, nodes: seq<NodeState>, jobs: Jobs)
    requires NodesInv(run, nodes, jobs)
    ensures ActiveUpTo(nodes, jobs, |nodes|) <= RunningSet(nodes)
  {
    forall i | 0 <= i < |nodes| && TakesSlot(nodes[i], jobs) ensures nodes[i].phase.Running? {
      assert NodeInv(run, nodes[i], jobs);
    }
  }

  lemma ObservedRunning(run: Run, nodes: seq<NodeState>, jobs: Jobs, k: nat)
    requires NodesInv(run, nodes, jobs)
    ensures RunningSet(ObservedUpTo(nodes, jobs, k)) <= RunningSet(nodes)
  {
    forall i | 0 <= i < |nodes| && Observed(nodes[i], jobs).phase.Running? ensures nodes[i].phase.Running? {
      ObservedMovesOn(run, nodes[i], jobs);
    }
  }

  /** Whether a pass keeps to the limit, for a run that was within it. */
  lemma PassFits(run: Run, nodes: seq<NodeState>, jobs: Jobs, faults: Faults)
    requires UniqueNames(nodes) && NodesInv(run, nodes, jobs) && |RunningSet(nodes)| <= Parallelism(run.spec)
    ensures var out := NodePass(run, nodes, jobs, faults);
            && (HasRoom(run, nodes, jobs) || FaultFrom(nodes, faults, 0) < |nodes| ==>
                  |RunningSet(out.nodes)| <= Parallelism(run.spec))
            && (!out.err && |RunningSet(out.nodes)| <= Parallelism(run.spec) ==> HasRoom(run, nodes, jobs))
  {
    var k := FaultFrom(nodes, faults, 0);
    if k < |nodes| {
      ObservedRunning(run, nodes, jobs, k);
      SubsetCount(RunningSet(ObservedUpTo(nodes, jobs, k)), RunningSet(nodes));
    } else {
      ActiveAreRunning(run, nodes, jobs);
      SubsetCount(ActiveUpTo(nodes, jobs, |nodes|), RunningSet(nodes));
      if HasRoom(run, nodes, jobs) { RoomSuffices(run, nodes, jobs, faults); }
      if !NodePass(run, nodes, jobs, faults).err { LimitKeptIff(run, nodes, jobs, faults); }
    }
  }

  /** The pass changes the stored run. */
  ghost predicate Changes(w: World, e: Event) {
    Works(w, e) && e.written
  }

  /** The pass has room for all it may start, or does not get as far as starting anything. */
  ghost predicate RoomFor(site: Site, w: World, e: Event)
    requires Works(w, e)
  {
    var nodes := BegunState(w, e).nodes;
    HasRoom(RunFor(site, w, e), nodes, w.jobs) || FaultFrom(nodes, e.faults, 0) < |nodes|
  }

  lemma BegunFits(w: World, e: Event)
    requires Works(w, e) && FitsLimit(w)
    ensures |RunningSet(BegunState(w, e).nodes)| <= Parallelism(w.spec)
  {
    if Starts(w.st, e.input.hash) { NothingRuns(InitialNodes(w.spec)); }
  }

  lemma NothingRuns(nodes: seq<NodeState>)
    requires forall i | 0 <= i < |nodes| :: nodes[i].phase.Pending?
    ensures RunningSet(nodes) == {}
  {
  }

  lemma StepFits(site: Site, w: World, e: Event, w': World)
    requires Inv(site, w) && Next(site, w, e, w') && FitsLimit(w) && Changes(w, e)
    ensures RoomFor(site, w, e) ==> |RunningSet(w'.st.nodes)| <= Parallelism(w.spec)
    ensures !PassFor(site, w, e).err && |RunningSet(w'.st.nodes)| <= Parallelism(w.spec) ==> RoomFor(site, w, e)
  {
    BegunInv(site, w, e);
    WorkResult(site, w, e);
    EnsuredNothing(w.spec.jobs, BegunState(w, e).nodes);
    BegunFits(w, e);
    PassFits(RunFor(site, w, e), BegunState(w, e).nodes, w.jobs, e.faults);
  }

  /** Only a pass that changes the stored run can take it beyond the limit. */
  lemma OthersFit(site: Site, w: World, e: Event, w': World)
    requires Next(site, w, e, w') && FitsLimit(w)
    requires Changes(w, e) ==> |RunningSet(w'.st.nodes)| <= Parallelism(w.spec)
    ensures FitsLimit(w')
  {
    if e.Reconciled? && Accepted(w.spec) && !Works(w, e) {
      IdleResult(site, w, e);
    }
  }

  ghost predicate RoomAt(site: Site, ws: seq<World>, es: seq<Event>, k: int)
    requires |ws| == |es| + 1 && 0 <= k < |es|
  {
    Changes(ws[k], es[k]) ==> RoomFor(site, ws[k], es[k])
  }

  ghost predicate AlwaysRoom(site: Site, ws: seq<World>, es: seq<Event>)
    requires |ws| == |es| + 1
  {
    forall k {:trigger RoomAt(site, ws, es, k)} | 0 <= k < |es| :: RoomAt(site, ws, es, k)
  }

  ghost predicate FitsAt(ws: seq<World>, es: seq<Event>, k: int)
    requires |ws| == |es| + 1 && 0 <= k < |es|
  {
    Changes(ws[k], es[k]) ==> |RunningSet(ws[k + 1].st.nodes)| <= Parallelism(ws[k].spec)
  }

  ghost predicate AlwaysFits(ws: seq<World>, es: seq<Event>)
    requires |ws| == |es| + 1
  {
    forall k {:trigger FitsAt(ws, es, k)} | 0 <= k < |es| :: FitsAt(ws, es, k)
  }

  ghost predicate NoErrorAt(site: Site, ws: seq<World>, es: seq<Event>, k: int)
    requires |ws| == |es| + 1 && 0 <= k < |es|
  {
    Changes(ws[k], es[k]) ==> !PassFor(site, ws[k], es[k]).err
  }

  ghost predicate NoErrors(site: Site, ws: seq<World>, es: seq<Event>)
    requires |ws| == |es| + 1
  {
    forall k {:trigger NoErrorAt(site, ws, es, k)} | 0 <= k < |es| :: NoErrorAt(site, ws, es, k)
  }

  lemma RoomFits(site: Site, ws: seq<World>, es: seq<Event>, k: nat)
    requires IsTrace(site, ws, es) && NoCollisions(site, ws, es) && Inv(site, ws[0]) && k < |es| && FitsLimit(ws[k])
    ensures RoomAt(site, ws, es, k) ==> FitsAt(ws, es, k)
    ensures NoErrorAt(site, ws, es, k) && FitsAt(ws, es, k) ==> RoomAt(site, ws, es, k)
    ensures FitsAt(ws, es, k) ==> FitsLimit(ws[k + 1])
  {
    TraceKeeps(site, ws, es, k);
    assert StepOf(site, ws, es, k);
    if Changes(ws[k], es[k]) { StepFits(site, ws[k], es[k], ws[k + 1]); }
    if FitsAt(ws, es, k) { OthersFit(site, ws[k], es[k], ws[k + 1]); }
  }

  /** Over any interleaving, faults and lost writes included, a run never records more running
      nodes than the limit if every pass that changes it has room. */
  lemma {:induction false} ParallelismSafety(site: Site, ws: seq<World>, es: seq<Event>, k: nat)
    requires IsTrace(site, ws, es) && NoCollisions(site, ws, es) && Inv(site, ws[0]) && FitsLimit(ws[0]) && k < |ws|
    requires AlwaysRoom(site, ws, es)
    ensures FitsLimit(ws[k])
    ensures k < |es| ==> FitsAt(ws, es, k)
  {
    if k > 0 {
      ParallelismSafety(site, ws, es, k - 1);
      RoomFits(site, ws, es, k - 1);
    }
    if k < |es| {
      assert RoomAt(site, ws, es, k);
      RoomFits(site, ws, es, k);
    }
  }

  lemma {:induction false} FitsThroughout(site: Site, ws: seq<World>, es: seq<Event>, k: nat)
    requires IsTrace(site, ws, es) && FitsLimit(ws[0]) && AlwaysFits(ws, es) && k < |ws|
    ensures FitsLimit(ws[k])
  {
    if k > 0 {
      FitsThroughout(site, ws, es, k - 1);
      assert StepOf(site, ws, es, k - 1) && FitsAt(ws, es, k - 1);
      OthersFit(site, ws[k - 1], es[k - 1], ws[k]);
    }
  }

  /** And where no pass ends in an error, only then. */
  lemma ParallelismIff(site: Site, ws: seq<World>, es: seq<Event>)
    requires IsTrace(site, ws, es) && NoCollisions(site, ws, es) && Inv(site, ws[0]) && FitsLimit(ws[0])
    requires NoErrors(site, ws, es)
    ensures AlwaysFits(ws, es) <==> AlwaysRoom(site, ws, es)
  {
    if AlwaysRoom(site, ws, es) {
      forall k | 0 <= k < |es| ensures FitsAt(ws, es, k) { ParallelismSafety(site, ws, es, k); }
    }
    if AlwaysFits(ws, es) {
      forall k | 0 <= k < |es| ensures RoomAt(site, ws, es, k) {
        FitsThroughout(site, ws, es, k);
        assert NoErrorAt(site, ws, es, k) && FitsAt(ws, es, k);
        RoomFits(site, ws, es, k);
      }
    }
  }
}
