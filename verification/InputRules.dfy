/** What a reconcile pass does with what it learns about its certificate, told over the stored fields:
    when a run begins, when it goes on, when nothing happens, and which phase is stored. */
module InputRules {
  import opened StringOrder
  import opened WorkflowSpec
  import opened Workflow
  import opened RunInvariant
  import opened Runs
  import Naming

  /** A phase that ends a run. */
  predicate IsOver(p: Phase) {
    p == Succeeded || p == Failed || p == Skipped
  }

  /** Nothing was run yet, or what was run is over and was for another input. */
  predicate NeedsRun(st: ExecState, hash: string) {
    st.inputHash == "" || (IsOver(st.phase) && st.inputHash != hash)
  }

  /** The pass knows its input and its result is stored. */
  ghost predicate Informed(w: World, e: Event) {
    e.Reconciled? && e.written && Accepted(w.spec) && e.secretName != "" && e.input.Hashed?
  }

  /** The first twelve characters. */
  function RunIDOf(hash: string): string {
    if |hash| > 12 then hash[..12] else hash
  }

  /** A node that has not run yet, or was just started with its own Job. */
  ghost predicate JustBegun(site: Site, runID: string, n: NodeState) {
    || (n.phase == Pending && n.jobName == "")
    || (n.phase == Running && n.jobName == Naming.JobName(site.hash, site.lower, site.cjob, site.cert, n.name, runID))
  }

  /** The nodes of a run that has just begun: one for each template, in order of name, none of them
      further than started. */
  ghost predicate BeginsWith(site: Site, spec: Spec, runID: string, nodes: seq<NodeState>) {
    && NodeNames(nodes) == JobNames(spec.jobs)
    && (forall i, j | 0 <= i < j < |nodes| :: Less(nodes[i].name, nodes[j].name))
    && forall i | 0 <= i < |nodes| :: JustBegun(site, runID, nodes[i])
  }

  lemma FirstPassNodes(run: Run, nodes: seq<NodeState>, jobs: Jobs, faults: Faults, i: nat)
    requires UniqueNames(nodes) && i < |nodes|
    requires forall j | 0 <= j < |nodes| :: nodes[j].phase.Pending? && nodes[j].jobName == ""
    ensures var n := NodePass(run, nodes, jobs, faults).nodes[i];
            n == nodes[i] || n == NodeState(nodes[i].name, run.nameOf(nodes[i].name), Running)
  {
    if FaultFrom(nodes, faults, 0) == |nodes| {
      NothingSkipped(run, nodes, jobs);
      var settled := Settled(run, nodes, jobs);
      if Slots(run, nodes, jobs) > 0 {
        var out := Attempt(run, settled, jobs, Order(run, settled), Slots(run, nodes, jobs), faults);
        assert NodePass(run, nodes, jobs, faults) == out;
      }
    }
  }

  /** Without a tracked Job nothing is found failed and nothing is skipped. */
  lemma NothingSkipped(run: Run, nodes: seq<NodeState>, jobs: Jobs)
    requires forall j | 0 <= j < |nodes| :: nodes[j].phase.Pending? && nodes[j].jobName == ""
    ensures Settled(run, nodes, jobs) == nodes
  {
    assert ObservedUpTo(nodes, jobs, |nodes|) == nodes;
    assert FailedUpTo(nodes, jobs, |nodes|) == {};
  }

  lemma NamesInOrder(spec: Spec, after: seq<NodeState>)
    requires SameNames(InitialNodes(spec), after)
    ensures NodeNames(after) == JobNames(spec.jobs)
    ensures forall i, j | 0 <= i < j < |after| :: Less(after[i].name, after[j].name)
  {
    InitialNames(spec);
    SettledNames(InitialNodes(spec), after);
    var names := InOrder(JobNames(spec.jobs));
    assert forall i | 0 <= i < |after| :: after[i].name == names[i];
  }

  /** A run begins exactly if there was none, or the last one is over and was for another input. It
      then takes the input's hash, its twelve-character prefix, the Secret's name and a fresh node
      for each template; otherwise these stay. */
  lemma RunBeginsIff(site: Site, w: World, e: Event, w': World)
    requires Next(site, w, e, w') && Informed(w, e)
    ensures NeedsRun(w.st, e.input.hash) ==>
              && w'.st.inputHash == e.input.hash && w'.st.runID == RunIDOf(e.input.hash)
              && w'.st.secretName == e.secretName
              && BeginsWith(site, w.spec, w'.st.runID, w'.st.nodes)
    ensures !NeedsRun(w.st, e.input.hash) ==>
              w'.st.inputHash == w.st.inputHash && w'.st.runID == w.st.runID && w'.st.secretName == w.st.secretName
  {
    if Works(w, e) {
      WorkResult(site, w, e);
      if NeedsRun(w.st, e.input.hash) { BegunNodes(site, w, e); }
    }
  }

  lemma BegunNodes(site: Site, w: World, e: Event)
    requires Works(w, e) && NeedsRun(w.st, e.input.hash)
    ensures BeginsWith(site, w.spec, RunIDOf(e.input.hash), PassFor(site, w, e).nodes)
  {
    FirstPassFor(site, w, e);
    InitialNames(w.spec);
    NamesInOrder(w.spec, PassFor(site, w, e).nodes);
    FirstRun(site, w.spec, e.secretName, RunIDOf(e.input.hash), w.jobs, e.faults);
  }

  lemma FirstPassFor(site: Site, w: World, e: Event)
    requires Works(w, e) && NeedsRun(w.st, e.input.hash)
    ensures var run := RunAt(site, w.spec, e.secretName, RunIDOf(e.input.hash));
            PassFor(site, w, e) == NodePass(run, InitialNodes(w.spec), w.jobs, e.faults)
  {
    BegunFields(w, e);
    assert RunFor(site, w, e) == RunAt(site, w.spec, e.secretName, RunIDOf(e.input.hash));
    FirstPassOf(RunFor(site, w, e), w.jobs, e.faults);
  }

  lemma BegunFields(w: World, e: Event)
    requires Works(w, e) && NeedsRun(w.st, e.input.hash)
    ensures BegunState(w, e).nodes == InitialNodes(w.spec) && BegunState(w, e).runID == RunIDOf(e.input.hash)
  {
  }

  lemma FirstPassOf(run: Run, jobs: Jobs, faults: Faults)
    ensures RunPass(run, InitialNodes(run.spec), jobs, faults) == NodePass(run, InitialNodes(run.spec), jobs, faults)
  {
    InitialNames(run.spec);
    EnsuredNothing(run.spec.jobs, InitialNodes(run.spec));
  }

  lemma FirstRun(site: Site, spec: Spec, secretName: string, runID: string, jobs: Jobs, faults: Faults)
    requires UniqueNames(InitialNodes(spec))
    ensures var after := NodePass(RunAt(site, spec, secretName, runID), InitialNodes(spec), jobs, faults).nodes;
            forall i | 0 <= i < |after| :: JustBegun(site, runID, after[i])
  {
    var run, nodes := RunAt(site, spec, secretName, runID), InitialNodes(spec);
    forall i | 0 <= i < |nodes| ensures JustBegun(site, runID, NodePass(run, nodes, jobs, faults).nodes[i]) {
      FirstPassNodes(run, nodes, jobs, faults, i);
    }
  }

  /** Apart from such passes nothing changes which input a run is for. */
  lemma InputStays(site: Site, w: World, e: Event, w': World)
    requires Next(site, w, e, w') && !(Informed(w, e) && NeedsRun(w.st, e.input.hash))
    ensures w'.st.inputHash == w.st.inputHash && w'.st.runID == w.st.runID
  {
    if Works(w, e) {
      WorkResult(site, w, e);
    } else if e.Reconciled? && Accepted(w.spec) {
      IdleResult(site, w, e);
    }
  }

  // ---- Which phase is stored ----------------------------------------------------------------

  /** The phase says what the nodes say: failed if one failed, else running if one runs, else
      succeeded if all are done with, else pending. */
  predicate PhaseTells(p: Phase, nodes: seq<NodeState>) {
    && (p == Failed <==> exists i :: 0 <= i < |nodes| && nodes[i].phase == Failed)
    && (p == Running <==> (forall i | 0 <= i < |nodes| :: nodes[i].phase != Failed)
                          && exists i :: 0 <= i < |nodes| && nodes[i].phase == Running)
    && (p == Succeeded <==> forall i | 0 <= i < |nodes| :: nodes[i].phase == Succeeded || nodes[i].phase == Skipped)
    && (p == Failed || p == Running || p == Succeeded || p == Pending)
  }

  lemma DerivedTells(nodes: seq<NodeState>)
    ensures PhaseTells(Derived(nodes), nodes)
  {
    if forall i | 0 <= i < |nodes| :: nodes[i].phase == Succeeded || nodes[i].phase == Skipped {
      assert !Any(nodes, Failed) && !Any(nodes, Running) && !Any(nodes, Pending) && !Any(nodes, Unset);
    }
    if Derived(nodes).Succeeded? {
      forall i | 0 <= i < |nodes| ensures nodes[i].phase == Succeeded || nodes[i].phase == Skipped {
        assert Any(nodes, nodes[i].phase);
      }
    }
  }

  /** A finished run that brings nothing new is left alone. Any other informed pass works, and stores
      the phase its nodes tell, or Pending if one of its calls failed. */
  lemma PhaseStored(site: Site, w: World, e: Event, w': World)
    requires Next(site, w, e, w') && Informed(w, e)
    ensures IsOver(w.st.phase) && !NeedsRun(w.st, e.input.hash) ==> w' == w
    ensures !IsOver(w.st.phase) || NeedsRun(w.st, e.input.hash) ==>
              && Works(w, e)
              && if PassFor(site, w, e).err then w'.st.phase == Pending else PhaseTells(w'.st.phase, w'.st.nodes)
  {
    if Works(w, e) {
      WorkResult(site, w, e);
      DerivedTells(PassFor(site, w, e).nodes);
    }
  }

  /** A pass that does not know its input: without a Secret name the run fails; if the Secret cannot be
      read or hashed a finished run stays and any other waits. Nodes and Jobs are not touched. */
  lemma NoInputStored(site: Site, w: World, e: Event, w': World)
    requires Next(site, w, e, w') && e.Reconciled? && e.written && Accepted(w.spec)
    requires e.secretName == "" || !e.input.Hashed?
    ensures w'.jobs == w.jobs && w'.st.nodes == w.st.nodes
    ensures e.secretName == "" ==> w'.st.phase == Failed && w'.st.secretName == ""
    ensures e.secretName != "" && IsOver(w.st.phase) ==> w' == w
    ensures e.secretName != "" && !IsOver(w.st.phase) ==> w'.st.phase == Pending && w'.st.secretName == e.secretName
  {
  }
}
