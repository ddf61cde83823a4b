/** The reconcile of one CertificateJob in its own form: a status object whose list of entries
    grows in a loop beside a map that indexes it. */
module Controller {
  import opened StringOrder
  import opened DependencyGraph
  import opened WorkflowSpec
  import opened Workflow
  import opened RunInvariant
  import opened Engine
  import opened StatusLoop

  /** The three conditions, with the reason given for Ready. */
  datatype Conditions = Conditions(ready: bool, progressing: bool, degraded: bool, reason: string)

  const INVALID_SPEC := Conditions(false, false, true, "InvalidSpec")
  const LIST_FAILED := Conditions(false, false, true, "ListFailed")

  class CertificateJobStatus {
    var observed: seq<ExecutionState>
    var conditions: Conditions

    constructor ()
      ensures observed == [] && conditions == Conditions(false, false, false, "")
    {
      observed, conditions := [], Conditions(false, false, false, "");
    }
  }

  ghost function ViewsOf(entries: seq<ExecutionState>): seq<ExecState>
    reads entries
  {
    seq(|entries|, i requires 0 <= i < |entries| reads entries => entries[i].View())
  }

  /** Every list of nodes has one node per name, as the API stores it. */
  ghost predicate NodesUnique(views: seq<ExecState>) {
    forall i | 0 <= i < |views| :: UniqueNames(views[i].nodes)
  }

  /** The index holds each key of the list, at its own entry. */
  ghost predicate Indexed(index: map<string, nat>, keys: seq<string>) {
    index.Keys == Elements(keys) && forall k | k in index :: index[k] < |keys| && keys[index[k]] == k
  }

  /** No entry with a key comes after the position stored for it. */
  ghost predicate LastOfEach(index: map<string, nat>, keys: seq<string>) {
    forall k, i | k in index && index[k] < i < |keys| :: keys[i] != k
  }

  /** `observedStateIndex`: of a repeated key the last position. */
  method ObservedStateIndex(status: CertificateJobStatus) returns (index: map<string, nat>)
    ensures Indexed(index, Keys(ViewsOf(status.observed))) && LastOfEach(index, Keys(ViewsOf(status.observed)))
  {
    index := map[];
    ghost var keys := Keys(ViewsOf(status.observed));
    NoElements<string>([]);
    for i := 0 to |status.observed|
      invariant Indexed(index, keys[..i]) && LastOfEach(index, keys[..i])
    {
      var entry := status.observed[i];
      var key := Key(entry.namespace, entry.name);
      assert keys[i] == key;
      IndexedNext(index, keys, i);
      index := index[key := i];
    }
    assert keys[..|keys|] == keys;
  }

  lemma IndexedNext(index: map<string, nat>, keys: seq<string>, i: nat)
    requires i < |keys| && Indexed(index, keys[..i]) && LastOfEach(index, keys[..i])
    ensures Indexed(index[keys[i] := i], keys[..i + 1]) && LastOfEach(index[keys[i] := i], keys[..i + 1])
  {
    assert keys[..i + 1] == keys[..i] + [keys[i]];
    assert Elements(keys[..i + 1]) == Elements(keys[..i]) + {keys[i]};
  }

  lemma IndexedAppend(index: map<string, nat>, views: seq<ExecState>, cert: Certificate)
    requires Indexed(index, Keys(views)) && CertKey(cert) !in index
    ensures Indexed(index[CertKey(cert) := |views|], Keys(views + [FreshEntry(cert)]))
  {
    var key := CertKey(cert);
    assert Keys(views + [FreshEntry(cert)]) == Keys(views) + [key];
    assert Elements(Keys(views) + [key]) == Elements(Keys(views)) + {key};
  }

  /** `ensureObservedCertificateState`: finds the entry through the index, or appends one to both. */
  method EnsureObservedCertificateState(status: CertificateJobStatus, known: map<string, nat>, cert: Certificate)
    returns (index: map<string, nat>, i: nat)
    requires NoDuplicates(status.observed)
    requires NoDuplicates(Keys(ViewsOf(status.observed))) && Indexed(known, Keys(ViewsOf(status.observed)))
    modifies status`observed
    ensures NoDuplicates(status.observed)
    ensures forall e | e in status.observed :: e in old(status.observed) || fresh(e)
    ensures ViewsOf(status.observed) == WithEntry(old(ViewsOf(status.observed)), cert)
    ensures NoDuplicates(Keys(ViewsOf(status.observed))) && Indexed(index, Keys(ViewsOf(status.observed)))
    ensures i < |status.observed| && i == Place(Keys(ViewsOf(status.observed)), CertKey(cert))
  {
    index := known;
    ghost var views := ViewsOf(status.observed);
    var key := Key(cert.namespace, cert.name);
    FoundEntry(views, cert);
    assert key in index <==> key in Elements(Keys(views));
    if key !in index {
      var entry := new ExecutionState(cert.namespace, cert.name);
      status.observed := status.observed + [entry];
      assert ViewsOf(status.observed) == views + [FreshEntry(cert)];
      IndexedAppend(index, views, cert);
      index := index[key := |status.observed| - 1];
    }
    i := index[key];
    PlaceUnique(Keys(ViewsOf(status.observed)), i);
  }

  /** `filterObservedStates`. */
  method FilterObservedStates(observed: seq<ExecutionState>, matched: set<string>)
    returns (filtered: seq<ExecutionState>)
    ensures ViewsOf(filtered) == Kept(ViewsOf(observed), matched)
    ensures forall e | e in filtered :: e in observed
  {
    filtered := [];
    ghost var views := ViewsOf(observed);
    for i := 0 to |observed|
      invariant ViewsOf(filtered) == Kept(views[..i], matched)
      invariant forall e | e in filtered :: e in observed
    {
      var entry := observed[i];
      assert views[..i + 1][..i] == views[..i] && views[..i + 1][i] == views[i];
      if Key(entry.namespace, entry.name) in matched {
        filtered := filtered + [entry];
      }
      assert ViewsOf(filtered) == Kept(views[..i + 1], matched);
    }
    assert views[..|views|] == views;
  }

  // ---- The loop -----------------------------------------------------------------------------

  lemma PassKeepsUnique(ctx: Context, cert: Certificate, input: Input, st: ExecState, jobs: Jobs, faults: Faults)
    requires Accepted(ctx.spec) && UniqueNames(st.nodes)
    ensures UniqueNames(CertPass(ctx, cert, input, st, jobs, faults).state.nodes)
  {
    if cert.secretName != "" && input.Hashed? {
      var begun := AfterHash(ctx.spec, cert.secretName, st, input.hash);
      BegunUnique(ctx.spec, cert.secretName, st, input.hash);
      EnsuredCovers(ctx.spec.jobs, begun.nodes);
      var run := RunOf(ctx, cert.name, cert.secretName, begun.runID);
      KeepsNames(Ensured(ctx.spec.jobs, begun.nodes),
                 NodePass(run, Ensured(ctx.spec.jobs, begun.nodes), jobs, faults).nodes);
    }
  }

  lemma EntryUnique(ctx: Context, s: Fold, v: Visit)
    requires NodesUnique(s.views)
    ensures NodesUnique(WithEntry(s.views, v.cert))
    ensures Accepted(ctx.spec) ==> NodesUnique(Turn(ctx, s, v).views)
  {
    var views := WithEntry(s.views, v.cert);
    if Accepted(ctx.spec) {
      PassKeepsUnique(ctx, v.cert, v.input, views[Place(Keys(views), CertKey(v.cert))], s.jobs, v.faults);
    }
  }

  /** One turn: the entry is found or made, and its pass runs on it in place. */
  method VisitCertificate(ctx: Context, status: CertificateJobStatus, known: map<string, nat>, v: Visit,
                          cluster: Cluster, deps: Graph, reverse: Graph, sofar: Progress,
                          ghost entries: set<ExecutionState>)
    returns (index: map<string, nat>, progress: Progress)
    requires entries == set e | e in status.observed
    requires Accepted(ctx.spec) && deps == Deps(ctx.spec) && reverse == Reverse(ctx.spec)
    requires NoDuplicates(status.observed) && NodesUnique(ViewsOf(status.observed))
    requires NoDuplicates(Keys(ViewsOf(status.observed))) && Indexed(known, Keys(ViewsOf(status.observed)))
    modifies status`observed, entries, cluster
    ensures NoDuplicates(status.observed)
    ensures forall e | e in status.observed :: e in entries || fresh(e)
    ensures Fold(ViewsOf(status.observed), cluster.jobs, progress)
            == Turn(ctx, Fold(old(ViewsOf(status.observed)), old(cluster.jobs), sofar), v)
    ensures NodesUnique(ViewsOf(status.observed))
    ensures NoDuplicates(Keys(ViewsOf(status.observed))) && Indexed(index, Keys(ViewsOf(status.observed)))
  {
    ghost var start := Fold(ViewsOf(status.observed), cluster.jobs, sofar);
    EntryUnique(ctx, start, v);
    var i;
    index, i := EnsureObservedCertificateState(status, known, v.cert);
    ghost var views := ViewsOf(status.observed);
    var state := status.observed[i];
    assert state in status.observed;
    assert views[i] == state.View();
    progress := ReconcileObservedCertificate(ctx, v.cert, v.input, cluster, state, deps, reverse, v.faults);
    assert ViewsOf(status.observed) == views[i := state.View()];
    progress := sofar.Merge(progress);
    TurnKeys(ctx, start, v);
    FoundEntry(start.views, v.cert);
    assert Keys(ViewsOf(status.observed)) == Keys(views);
  }

  /** The loop over the matching certificates. */
  method VisitAll(ctx: Context, status: CertificateJobStatus, visits: seq<Visit>, cluster: Cluster, deps: Graph,
                  reverse: Graph)
    returns (matched: set<string>, progress: Progress)
    requires Accepted(ctx.spec) && deps == Deps(ctx.spec) && reverse == Reverse(ctx.spec)
    requires NoDuplicates(status.observed) && NodesUnique(ViewsOf(status.observed))
             && NoDuplicates(Keys(ViewsOf(status.observed)))
    modifies status`observed, status.observed, cluster
    ensures matched == VisitKeys(visits)
    ensures Fold(ViewsOf(status.observed), cluster.jobs, progress)
            == AfterTurns(ctx, Fold(old(ViewsOf(status.observed)), old(cluster.jobs), NOTHING), visits)
  {
    ghost var start := Fold(ViewsOf(status.observed), cluster.jobs, NOTHING);
    var index := ObservedStateIndex(status);
    matched, progress := {}, NOTHING;
    for k := 0 to |visits|
      invariant matched == VisitKeys(visits[..k])
      invariant NoDuplicates(status.observed) && NodesUnique(ViewsOf(status.observed))
      invariant forall e | e in status.observed :: e in old(status.observed) || fresh(e)
      invariant Fold(ViewsOf(status.observed), cluster.jobs, progress) == AfterTurns(ctx, start, visits[..k])
      invariant NoDuplicates(Keys(ViewsOf(status.observed))) && Indexed(index, Keys(ViewsOf(status.observed)))
    {
      assert visits[..k + 1][..k] == visits[..k] && visits[..k + 1][k] == visits[k];
      LastVisit(visits[..k + 1]);
      matched := matched + {Key(visits[k].cert.namespace, visits[k].cert.name)};
      ghost var entries := set e | e in status.observed;
      assert forall e | e in entries :: e in old(status.observed) || fresh(e);
      index, progress := VisitCertificate(ctx, status, index, visits[k], cluster, deps, reverse, progress, entries);
    }
    assert visits[..|visits|] == visits;
  }

  /** `applyCertificateJobConditions`. */
  function ConditionsFor(count: nat, p: Progress): Conditions {
    Conditions(!p.anyFailed, p.anyInProgress, p.anyFailed,
               if p.anyFailed then "WorkflowFailed" else if count == 0 then "NoMatchingCertificates" else "Reconciled")
  }

  /** Listing the matching certificates can fail. */
  datatype Listing = ListError | Listed(visits: seq<Visit>)

  /** The graph, if the spec is accepted. */
  method GraphOf(spec: Spec) returns (r: GraphResult)
    ensures r.Built? <==> Accepted(spec)
    ensures r.Built? ==> r.deps == Deps(spec) && r.reverse == Reverse(spec)
  {
    r := BuildWorkflowGraph(spec);
  }

  /** `reconcileCertificateJob`. When the spec is accepted and the certificates are listed, the
      status has exactly one entry for each, the pass asks to be run again and reports progress
      exactly if some entry waits or runs, and is degraded exactly if some pass saw a failure.
      Otherwise no entry and no Job is touched. */
  method ReconcileCertificateJob(ctx: Context, status: CertificateJobStatus, listing: Listing, cluster: Cluster)
    returns (requeue: bool, err: bool)
    requires NoDuplicates(status.observed) && NodesUnique(ViewsOf(status.observed))
             && NoDuplicates(Keys(ViewsOf(status.observed)))
    requires listing.Listed? ==> DistinctCerts(listing.visits)
    modifies status, status.observed, cluster
    ensures err <==> Accepted(ctx.spec) && listing.ListError?
    ensures !Accepted(ctx.spec) || listing.ListError? ==>
              && !requeue && ViewsOf(status.observed) == old(ViewsOf(status.observed))
              && cluster.jobs == old(cluster.jobs)
              && status.conditions
                 == Conditions(false, false, true, if !Accepted(ctx.spec) then "InvalidSpec" else "ListFailed")
    ensures Accepted(ctx.spec) && listing.Listed? ==>
              var start := Fold(old(ViewsOf(status.observed)), old(cluster.jobs), NOTHING);
              && ViewsOf(status.observed) == FinalViews(ctx, start, listing.visits)
              && cluster.jobs == AfterTurns(ctx, start, listing.visits).jobs
              && NoDuplicates(Keys(ViewsOf(status.observed)))
              && Elements(Keys(ViewsOf(status.observed))) == VisitKeys(listing.visits)
              && (requeue <==> SomeBusy(ViewsOf(status.observed)))
              && (status.conditions.progressing <==> SomeBusy(ViewsOf(status.observed)))
              && (status.conditions.degraded <==> SomeSeenFailed(ctx, start, listing.visits))
              && status.conditions.ready == !status.conditions.degraded
              && status.conditions.reason == (if status.conditions.degraded then "WorkflowFailed"
                                              else if listing.visits == [] then "NoMatchingCertificates"
                                              else "Reconciled")
  {
    err := false;
    var graph := GraphOf(ctx.spec);
    if graph.Rejected? {
      status.conditions := INVALID_SPEC;
      return false, false;
    }
    if listing.ListError? {
      status.conditions := LIST_FAILED;
      return false, true;
    }
    requeue := ReconcileListed(ctx, status, listing.visits, cluster, graph.deps, graph.reverse);
  }

  /** The part after the certificates are listed. */
  method ReconcileListed(ctx: Context, status: CertificateJobStatus, visits: seq<Visit>, cluster: Cluster, deps: Graph,
                         reverse: Graph)
    returns (requeue: bool)
    requires Accepted(ctx.spec) && deps == Deps(ctx.spec) && reverse == Reverse(ctx.spec) && DistinctCerts(visits)
    requires NoDuplicates(status.observed) && NodesUnique(ViewsOf(status.observed))
             && NoDuplicates(Keys(ViewsOf(status.observed)))
    modifies status, status.observed, cluster
    ensures var start := Fold(old(ViewsOf(status.observed)), old(cluster.jobs), NOTHING);
            && ViewsOf(status.observed) == FinalViews(ctx, start, visits)
            && cluster.jobs == AfterTurns(ctx, start, visits).jobs
            && NoDuplicates(Keys(ViewsOf(status.observed)))
            && Elements(Keys(ViewsOf(status.observed))) == VisitKeys(visits)
            && (requeue <==> SomeBusy(ViewsOf(status.observed)))
            && (status.conditions.progressing <==> SomeBusy(ViewsOf(status.observed)))
            && (status.conditions.degraded <==> SomeSeenFailed(ctx, start, visits))
    ensures status.conditions.ready == !status.conditions.degraded
    ensures status.conditions.reason == (if status.conditions.degraded then "WorkflowFailed"
                                         else if visits == [] then "NoMatchingCertificates" else "Reconciled")
  {
    ghost var start := Fold(ViewsOf(status.observed), cluster.jobs, NOTHING);
    var progress := VisitAndFilter(ctx, status, visits, cluster, deps, reverse);
    OneEntryEach(ctx, start, visits);
    SummaryIsExact(ctx, start, visits);
    status.conditions := ConditionsFor(|visits|, progress);
    requeue := progress.needsRequeue;
  }

  /** The loop, and the filter after it. */
  method VisitAndFilter(ctx: Context, status: CertificateJobStatus, visits: seq<Visit>, cluster: Cluster, deps: Graph,
                        reverse: Graph)
    returns (progress: Progress)
    requires Accepted(ctx.spec) && deps == Deps(ctx.spec) && reverse == Reverse(ctx.spec)
    requires NoDuplicates(status.observed) && NodesUnique(ViewsOf(status.observed))
             && NoDuplicates(Keys(ViewsOf(status.observed)))
    modifies status`observed, status.observed, cluster
    ensures var start := Fold(old(ViewsOf(status.observed)), old(cluster.jobs), NOTHING);
            && ViewsOf(status.observed) == FinalViews(ctx, start, visits)
            && cluster.jobs == AfterTurns(ctx, start, visits).jobs
            && progress == AfterTurns(ctx, start, visits).progress
  {
    var matched;
    matched, progress := VisitAll(ctx, status, visits, cluster, deps, reverse);
    var kept := FilterObservedStates(status.observed, matched);
    status.observed := kept;
  }
}
