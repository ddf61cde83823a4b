/** Crash and replay: a pass that stops anywhere, or whose status write is lost, is made good by
    running it again from the stored status. */
module Replay {
  import opened StringOrder
  import opened WorkflowSpec
  import opened Workflow
  import opened RunInvariant

  /** Every Job of `a` is in `b`, unchanged. */
  ghost predicate Within(a: Jobs, b: Jobs) {
    forall k | k in a :: k in b && b[k] == a[k]
  }

  /** A stored Job name is the name of the node's Job. */
  ghost predicate Tracked(run: Run, nodes: seq<NodeState>) {
    forall i | 0 <= i < |nodes| && nodes[i].jobName != "" :: nodes[i].jobName == run.nameOf(nodes[i].name)
  }

  /** Two clusters show the same Jobs for the nodes that have one. */
  ghost predicate LookAlike(nodes: seq<NodeState>, a: Jobs, b: Jobs) {
    forall i | 0 <= i < |nodes| && nodes[i].jobName != "" ::
      && (nodes[i].jobName in a <==> nodes[i].jobName in b)
      && (nodes[i].jobName in a ==> a[nodes[i].jobName] == b[nodes[i].jobName])
  }

  lemma LookAlikeSettles(run: Run, nodes: seq<NodeState>, a: Jobs, b: Jobs)
    requires LookAlike(nodes, a, b)
    ensures Settled(run, nodes, a) == Settled(run, nodes, b)
    ensures Slots(run, nodes, a) == Slots(run, nodes, b)
  {
    forall i | 0 <= i < |nodes|
      ensures Observed(nodes[i], a) == Observed(nodes[i], b)
      ensures TakesSlot(nodes[i], a) == TakesSlot(nodes[i], b)
      ensures FoundFailed(nodes[i], a) == FoundFailed(nodes[i], b)
    {}
    assert ObservedUpTo(nodes, a, |nodes|) == ObservedUpTo(nodes, b, |nodes|);
    assert ActiveUpTo(nodes, a, |nodes|) == ActiveUpTo(nodes, b, |nodes|);
    assert FailedUpTo(nodes, a, |nodes|) == FailedUpTo(nodes, b, |nodes|);
  }

  /** A node that keeps a Job is not pending once the Jobs were read. */
  lemma JobMeansNotPending(run: Run, nodes: seq<NodeState>, jobs: Jobs, i: nat)
    requires i < |nodes| && nodes[i].jobName != ""
    ensures !Settled(run, nodes, jobs)[i].phase.Pending?
  {
    SettledShape(run, nodes, jobs);
    assert ObservedUpTo(nodes, jobs, |nodes|)[i] == Observed(nodes[i], jobs);
  }

  /** Creating Jobs for runnable nodes is not seen by the nodes that have a Job. */
  lemma NewJobsUnseen(run: Run, nodes: seq<NodeState>, jobs: Jobs, names: seq<string>, more: Jobs)
    requires UniqueNames(nodes) && Tracked(run, nodes) && DistinctNames(run, NodeNames(nodes))
    requires Elements(names) <= Runnable(run.spec.failurePolicy, Settled(run, nodes, jobs), Deps(run.spec))
    requires Within(jobs, more) && Within(more, JobsAfter(run, jobs, names))
    ensures LookAlike(nodes, jobs, more)
  {
    forall i | 0 <= i < |nodes| && nodes[i].jobName != "" && nodes[i].jobName in more ensures nodes[i].jobName in jobs {
      if nodes[i].jobName !in jobs {
        NewJobIsPending(run, nodes, jobs, names, i);
        JobMeansNotPending(run, nodes, jobs, i);
      }
    }
  }

  lemma NewJobIsPending(run: Run, nodes: seq<NodeState>, jobs: Jobs, names: seq<string>, i: nat)
    requires UniqueNames(nodes) && DistinctNames(run, NodeNames(nodes)) && i < |nodes|
    requires Elements(names) <= Runnable(run.spec.failurePolicy, Settled(run, nodes, jobs), Deps(run.spec))
    requires run.nameOf(nodes[i].name) in JobsAfter(run, jobs, names) && run.nameOf(nodes[i].name) !in jobs
    ensures Settled(run, nodes, jobs)[i].phase.Pending?
  {
    var settled := Settled(run, nodes, jobs);
    SettledNames(nodes, settled);
    RunnableAreNodes(run.spec.failurePolicy, settled, Deps(run.spec));
    MadeForNode(run, nodes, jobs, names, i);
    assert nodes[i].name in Elements(names);
    var k := RunnableName(run.spec.failurePolicy, settled, Deps(run.spec), nodes[i].name);
    assert k == i;
  }

  /** With distinct names each missing Job is the one made for its own node. */
  lemma JobsAfterExact(run: Run, universe: set<string>, jobs: Jobs, names: seq<string>, n: string)
    requires DistinctNames(run, universe) && Elements(names) <= universe && n in names && run.nameOf(n) !in jobs
    ensures var r := JobsAfter(run, jobs, names);
            run.nameOf(n) in r && r[run.nameOf(n)] == run.newJob(n)
  {
    var r := JobsAfter(run, jobs, names);
    assert MadeFor(run, names, run.nameOf(n), r[run.nameOf(n)]);
    var x :| x in names && run.nameOf(n) == run.nameOf(x) && r[run.nameOf(n)] == run.newJob(x);
    assert x in Elements(names) && n in Elements(names);
  }

  /** Starting over with some of the Jobs already there ends with the same Jobs. */
  lemma CatchUp(run: Run, universe: set<string>, jobs: Jobs, more: Jobs, part: seq<string>, all: seq<string>)
    requires DistinctNames(run, universe) && Elements(all) <= universe && part <= all
    requires Within(jobs, more) && Within(more, JobsAfter(run, jobs, all))
    ensures Within(more, JobsAfter(run, more, part)) && Within(JobsAfter(run, more, part), JobsAfter(run, jobs, all))
    ensures part == all ==> JobsAfter(run, more, part) == JobsAfter(run, jobs, all)
  {
    var r, full := JobsAfter(run, more, part), JobsAfter(run, jobs, all);
    forall k | k in r ensures k in full && full[k] == r[k] {
      if k !in more {
        assert MadeFor(run, part, k, r[k]);
        var n :| n in part && k == run.nameOf(n) && r[k] == run.newJob(n);
        assert n in all;
        JobsAfterExact(run, universe, jobs, all, n);
      }
    }
    if part == all {
      forall k | k in full ensures k in r {
        if k !in jobs {
          assert MadeFor(run, all, k, full[k]);
          var n :| n in all && k == run.nameOf(n);
        }
      }
    }
  }

  /** The undisturbed pass. */
  ghost function Undisturbed(run: Run, nodes: seq<NodeState>, jobs: Jobs): PassOut {
    NodePass(run, nodes, jobs, NO_FAULTS)
  }

  /** What any pass creates: a beginning of the runnable nodes, within the slots. */
  lemma CreatedShape(run: Run, nodes: seq<NodeState>, jobs: Jobs, faults: Faults)
    ensures var out, slots := NodePass(run, nodes, jobs, faults), Slots(run, nodes, jobs);
            && out.created <= Order(run, Settled(run, nodes, jobs))
            && |out.created| <= (if slots > 0 then slots else 0)
            && out.jobs == JobsAfter(run, jobs, out.created)
  {
    var settled := Settled(run, nodes, jobs);
    if FaultFrom(nodes, faults, 0) == |nodes| && Slots(run, nodes, jobs) > 0 {
      var out := Attempt(run, settled, jobs, Order(run, settled), Slots(run, nodes, jobs), faults);
      assert NodePass(run, nodes, jobs, faults) == out;
    }
  }

  lemma UndisturbedShape(run: Run, nodes: seq<NodeState>, jobs: Jobs)
    ensures var full := Undisturbed(run, nodes, jobs);
            var settled, slots := Settled(run, nodes, jobs), Slots(run, nodes, jobs);
            && !full.err
            && full.nodes == Started(run, settled, Elements(full.created))
            && (slots > 0 ==> |full.created| == slots || full.created == Order(run, settled))
  {
    var settled := Settled(run, nodes, jobs);
    assert FaultFrom(nodes, NO_FAULTS, 0) == |nodes|;
    if Slots(run, nodes, jobs) <= 0 {
      NoElements<string>([]);
      assert Started(run, settled, {}) == settled;
    } else {
      NeverStops(run, settled, jobs, Order(run, settled), Slots(run, nodes, jobs));
    }
  }

  lemma NeverStops(run: Run, nodes: seq<NodeState>, jobs: Jobs, order: seq<string>, slots: nat)
    ensures !Attempt(run, nodes, jobs, order, slots, NO_FAULTS).err
  {
  }

  lemma PrefixOfPrefix(a: seq<string>, b: seq<string>, s: seq<string>)
    requires a <= s && b <= s && |a| <= |b|
    ensures a <= b
  {
    assert a == s[..|a|] && b == s[..|b|];
  }

  /** What a disturbed pass creates is the beginning of what the undisturbed one creates. */
  lemma CreatedPart(run: Run, nodes: seq<NodeState>, jobs: Jobs, more: Jobs, faults: Faults)
    requires Settled(run, nodes, jobs) == Settled(run, nodes, more)
             && Slots(run, nodes, jobs) == Slots(run, nodes, more)
    ensures NodePass(run, nodes, more, faults).created <= Undisturbed(run, nodes, jobs).created
  {
    CreatedShape(run, nodes, jobs, NO_FAULTS);
    CreatedShape(run, nodes, more, faults);
    UndisturbedShape(run, nodes, jobs);
    PrefixOfPrefix(NodePass(run, nodes, more, faults).created, Undisturbed(run, nodes, jobs).created,
                   Order(run, Settled(run, nodes, jobs)));
  }

  /** While only Jobs of this pass were added, the pass sees what it saw before. */
  lemma SeesTheSame(run: Run, nodes: seq<NodeState>, jobs: Jobs, more: Jobs)
    requires UniqueNames(nodes) && Tracked(run, nodes) && DistinctNames(run, NodeNames(nodes))
    requires Within(jobs, more) && Within(more, Undisturbed(run, nodes, jobs).jobs)
    ensures Settled(run, nodes, jobs) == Settled(run, nodes, more) && Slots(run, nodes, jobs) == Slots(run, nodes, more)
    ensures Elements(Undisturbed(run, nodes, jobs).created) <= NodeNames(nodes)
  {
    var full, settled := Undisturbed(run, nodes, jobs), Settled(run, nodes, jobs);
    CreatedShape(run, nodes, jobs, NO_FAULTS);
    PrefixElements(full.created, Order(run, settled));
    NewJobsUnseen(run, nodes, jobs, full.created, more);
    LookAlikeSettles(run, nodes, jobs, more);
    SettledNames(nodes, settled);
    RunnableAreNodes(run.spec.failurePolicy, settled, Deps(run.spec));
  }

  /** From any cluster between the old one and the one the undisturbed pass leaves, a pass that
      may fail anywhere stays between them, and one without faults ends exactly there. */
  lemma PassConverges(run: Run, nodes: seq<NodeState>, jobs: Jobs, more: Jobs, faults: Faults)
    requires UniqueNames(nodes) && Tracked(run, nodes) && DistinctNames(run, NodeNames(nodes))
    requires Within(jobs, more) && Within(more, Undisturbed(run, nodes, jobs).jobs)
    ensures var full, out := Undisturbed(run, nodes, jobs), NodePass(run, nodes, more, faults);
            && Within(jobs, out.jobs) && Within(out.jobs, full.jobs)
            && (faults == NO_FAULTS ==> out.nodes == full.nodes && out.jobs == full.jobs && !out.err)
  {
    SeesTheSame(run, nodes, jobs, more);
    CreatedPart(run, nodes, jobs, more, faults);
    CreatedShape(run, nodes, jobs, NO_FAULTS);
    CreatedShape(run, nodes, more, faults);
    CatchUp(run, NodeNames(nodes), jobs, more, NodePass(run, nodes, more, faults).created,
            Undisturbed(run, nodes, jobs).created);
    if faults == NO_FAULTS { SameCreated(run, nodes, jobs, more); }
  }

  lemma SameCreated(run: Run, nodes: seq<NodeState>, jobs: Jobs, more: Jobs)
    requires Settled(run, nodes, jobs) == Settled(run, nodes, more)
             && Slots(run, nodes, jobs) == Slots(run, nodes, more)
    ensures var a, b := Undisturbed(run, nodes, jobs), Undisturbed(run, nodes, more);
            a.created == b.created && a.nodes == b.nodes && !b.err
  {
    CreatedPart(run, nodes, jobs, more, NO_FAULTS);
    CreatedPart(run, nodes, more, jobs, NO_FAULTS);
    UndisturbedShape(run, nodes, jobs);
    UndisturbedShape(run, nodes, more);
  }

  // ---- Any number of crashes ----------------------------------------------------------------

  /** The cluster after a series of passes over one certificate whose status writes were all lost.
      Each pass fails its own way; the status and the inputs stay the same. */
  ghost function AfterCrashes(ctx: Context, cert: Certificate, input: Input, st: ExecState, jobs: Jobs,
                              plans: seq<Faults>): Jobs {
    if plans == [] then jobs
    else CertPass(ctx, cert, input, st, AfterCrashes(ctx, cert, input, st, jobs, plans[..|plans| - 1]),
                  plans[|plans| - 1]).jobs
  }

  /** The status from which the pass runs. */
  ghost predicate Replayable(ctx: Context, cert: Certificate, input: Input, st: ExecState) {
    input.Hashed? ==>
      var begun := AfterHash(ctx.spec, cert.secretName, st, input.hash);
      var run, nodes := RunOf(ctx, cert.name, cert.secretName, begun.runID), Ensured(ctx.spec.jobs, begun.nodes);
      UniqueNames(nodes) && Tracked(run, nodes) && DistinctNames(run, NodeNames(nodes))
  }

  lemma CertPassConverges(ctx: Context, cert: Certificate, input: Input, st: ExecState, jobs: Jobs, more: Jobs,
                          faults: Faults)
    requires Replayable(ctx, cert, input, st)
    requires Within(jobs, more) && Within(more, CertPass(ctx, cert, input, st, jobs, NO_FAULTS).jobs)
    ensures var full := CertPass(ctx, cert, input, st, jobs, NO_FAULTS);
            var out := CertPass(ctx, cert, input, st, more, faults);
            && Within(jobs, out.jobs) && Within(out.jobs, full.jobs)
            && (faults == NO_FAULTS ==> out == full)
  {
    var begun := if input.Hashed? then AfterHash(ctx.spec, cert.secretName, st, input.hash) else st;
    if cert.secretName == "" || !input.Hashed? || IsTerminal(begun.phase) {
      assert more == jobs;
    } else {
      var run, nodes := RunOf(ctx, cert.name, cert.secretName, begun.runID), Ensured(ctx.spec.jobs, begun.nodes);
      assert CertPass(ctx, cert, input, st, jobs, NO_FAULTS) == Concluded(begun, NodePass(run, nodes, jobs, NO_FAULTS));
      assert CertPass(ctx, cert, input, st, more, faults) == Concluded(begun, NodePass(run, nodes, more, faults));
      PassConverges(run, nodes, jobs, more, faults);
      UndisturbedShape(run, nodes, jobs);
    }
  }

  /** After any number of passes that stopped anywhere or lost their status write, a pass without
      faults from the old status reaches the same state, Job names and cluster as one undisturbed
      pass: it adopts the Jobs that exist and creates only the missing ones. */
  lemma {:induction false} ReplayIsSafe(ctx: Context, cert: Certificate, input: Input, st: ExecState, jobs: Jobs,
                                        plans: seq<Faults>)
    requires Replayable(ctx, cert, input, st)
    ensures var full := CertPass(ctx, cert, input, st, jobs, NO_FAULTS);
            var crashed := AfterCrashes(ctx, cert, input, st, jobs, plans);
            && Within(jobs, crashed) && Within(crashed, full.jobs)
            && CertPass(ctx, cert, input, st, crashed, NO_FAULTS) == full
    decreases |plans|
  {
    var crashed := AfterCrashes(ctx, cert, input, st, jobs, plans);
    if plans == [] {
      CertPassGrows(ctx, cert, input, st, jobs, NO_FAULTS);
    } else {
      var front := plans[..|plans| - 1];
      ReplayIsSafe(ctx, cert, input, st, jobs, front);
      CertPassConverges(ctx, cert, input, st, jobs, AfterCrashes(ctx, cert, input, st, jobs, front),
                        plans[|plans| - 1]);
    }
    CertPassConverges(ctx, cert, input, st, jobs, crashed, NO_FAULTS);
  }

  /** A pass removes and changes no Job. */
  lemma CertPassGrows(ctx: Context, cert: Certificate, input: Input, st: ExecState, jobs: Jobs, faults: Faults)
    ensures Within(jobs, CertPass(ctx, cert, input, st, jobs, faults).jobs)
  {
    if cert.secretName != "" && input.Hashed? {
      var begun := AfterHash(ctx.spec, cert.secretName, st, input.hash);
      NodePassGrows(RunOf(ctx, cert.name, cert.secretName, begun.runID), Ensured(ctx.spec.jobs, begun.nodes), jobs,
                    faults);
    }
  }

  lemma NodePassGrows(run: Run, nodes: seq<NodeState>, jobs: Jobs, faults: Faults)
    ensures Within(jobs, NodePass(run, nodes, jobs, faults).jobs)
  {
    var settled := Settled(run, nodes, jobs);
    if FaultFrom(nodes, faults, 0) == |nodes| && Slots(run, nodes, jobs) > 0 {
      var out := Attempt(run, settled, jobs, Order(run, settled), Slots(run, nodes, jobs), faults);
      assert NodePass(run, nodes, jobs, faults) == out;
    }
  }
}
