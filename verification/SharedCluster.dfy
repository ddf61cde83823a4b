/** All certificates of one CertificateJob share one cluster and are visited in turn. For each of
    them the turns of the others are moves of the cluster, so what `Runs` proves of one certificate
    holds for every certificate of the loop. */
module SharedCluster {
  import opened StringOrder
  import opened WorkflowSpec
  import opened Workflow
  import opened RunInvariant
  import opened Passes
  import opened Replay
  import opened Runs
  import opened StatusLoop
  import Naming

  function SiteOf(ctx: Context, cert: Certificate): Site {
    Site(ctx.hash, ctx.lower, ctx.cjob, cert.namespace, cert.name)
  }

  function EventOf(v: Visit, written: bool): Event {
    Reconciled(v.cert.secretName, v.input, v.faults, written)
  }

  /** The cluster when visit `j` begins. */
  ghost function JobsAt(ctx: Context, start: Fold, visits: seq<Visit>, j: nat): Jobs
    requires j <= |visits|
  {
    AfterTurns(ctx, start, visits[..j]).jobs
  }

  ghost function EntryOf(start: Fold, visits: seq<Visit>, j: nat): ExecState
    requires j < |visits|
  {
    Before(start.views, visits[j].cert)
  }

  /** The entry that is stored in the end: the new one, or the old one if the write is lost. */
  ghost function StoredOf(ctx: Context, start: Fold, visits: seq<Visit>, j: nat, written: bool): ExecState
    requires j < |visits|
  {
    if written then OutOf(ctx, start, visits, j).state else EntryOf(start, visits, j)
  }

  lemma TurnJobs(ctx: Context, start: Fold, visits: seq<Visit>, j: nat)
    requires NoDuplicates(Keys(start.views)) && DistinctCerts(visits) && j < |visits|
    ensures JobsAt(ctx, start, visits, j + 1) == OutOf(ctx, start, visits, j).jobs
  {
    var part := visits[..j + 1];
    assert part[..j] == visits[..j] && part[j] == visits[j] && |part| - 1 == j;
    LastReport(ctx, start, part);
  }

  // ---- What a turn does to the Jobs of the others -------------------------------------------

  /** A pass of this visit may create a Job of this name. */
  ghost predicate MayCreate(ctx: Context, v: Visit, st: ExecState, key: string) {
    v.cert.secretName != "" && v.input.Hashed? &&
    var begun := AfterHash(ctx.spec, v.cert.secretName, st, v.input.hash);
    var run := RunOf(ctx, v.cert.name, v.cert.secretName, begun.runID);
    !IsTerminal(begun.phase) && NamedAmong(run, Ensured(ctx.spec.jobs, begun.nodes), key)
  }

  ghost predicate NamedAmong(run: Run, nodes: seq<NodeState>, key: string) {
    exists n :: n in NodeNames(nodes) && key == run.nameOf(n)
  }

  lemma PassCreates(run: Run, nodes: seq<NodeState>, jobs: Jobs, faults: Faults, key: string)
    requires key in NodePass(run, nodes, jobs, faults).jobs && key !in jobs
    ensures NamedAmong(run, nodes, key)
  {
    var out := NodePass(run, nodes, jobs, faults);
    CreatedShape(run, nodes, jobs, faults);
    assert MadeFor(run, out.created, key, out.jobs[key]);
    var n :| n in out.created && key == run.nameOf(n);
    PrefixElements(out.created, Order(run, Settled(run, nodes, jobs)));
    RunnableNames(run, nodes, jobs);
    assert n in Elements(out.created);
  }

  /** A turn leaves alone every Job it may not create. */
  ghost predicate SameJob(a: Jobs, b: Jobs, key: string) {
    (key in a <==> key in b) && (key in a ==> b[key] == a[key])
  }

  lemma TurnLeavesAlone(ctx: Context, v: Visit, st: ExecState, jobs: Jobs, key: string)
    requires !MayCreate(ctx, v, st, key)
    ensures SameJob(jobs, CertPass(ctx, v.cert, v.input, st, jobs, v.faults).jobs, key)
  {
    CertPassGrows(ctx, v.cert, v.input, st, jobs, v.faults);
    if v.cert.secretName != "" && v.input.Hashed? {
      var begun := AfterHash(ctx.spec, v.cert.secretName, st, v.input.hash);
      var run, nodes := RunOf(ctx, v.cert.name, v.cert.secretName, begun.runID), Ensured(ctx.spec.jobs, begun.nodes);
      if !IsTerminal(begun.phase) {
        assert CertPass(ctx, v.cert, v.input, st, jobs, v.faults)
               == Concluded(begun, NodePass(run, nodes, jobs, v.faults));
        if key !in jobs && key in NodePass(run, nodes, jobs, v.faults).jobs {
          PassCreates(run, nodes, jobs, v.faults, key);
        }
      }
    }
  }

  /** No visit from `a` up to `b` may create a Job of this name. */
  ghost predicate NoneCreates(ctx: Context, start: Fold, visits: seq<Visit>, a: nat, b: nat, key: string) {
    forall j | a <= j < b && j < |visits| :: !MayCreate(ctx, visits[j], EntryOf(start, visits, j), key)
  }

  lemma OneTurn(ctx: Context, start: Fold, visits: seq<Visit>, j: nat, key: string)
    requires NoDuplicates(Keys(start.views)) && DistinctCerts(visits) && j < |visits|
    requires !MayCreate(ctx, visits[j], EntryOf(start, visits, j), key)
    ensures SameJob(JobsAt(ctx, start, visits, j), JobsAt(ctx, start, visits, j + 1), key)
  {
    TurnJobs(ctx, start, visits, j);
    TurnLeavesAlone(ctx, visits[j], EntryOf(start, visits, j), JobsAt(ctx, start, visits, j), key);
  }

  lemma {:induction false} StillSame(clusters: seq<Jobs>, a: nat, b: nat, key: string)
    requires a <= b < |clusters| && forall j | a <= j < b :: SameJob(clusters[j], clusters[j + 1], key)
    ensures SameJob(clusters[a], clusters[b], key)
    decreases b
  {
    if a < b { StillSame(clusters, a, b - 1, key); }
  }

  lemma TurnsLeaveAlone(ctx: Context, start: Fold, visits: seq<Visit>, a: nat, b: nat, key: string)
    requires NoDuplicates(Keys(start.views)) && DistinctCerts(visits) && a <= b <= |visits|
    requires NoneCreates(ctx, start, visits, a, b, key)
    ensures SameJob(JobsAt(ctx, start, visits, a), JobsAt(ctx, start, visits, b), key)
  {
    var clusters := seq(|visits| + 1, j requires 0 <= j <= |visits| => JobsAt(ctx, start, visits, j));
    forall j | a <= j < b ensures SameJob(clusters[j], clusters[j + 1], key) { OneTurn(ctx, start, visits, j, key); }
    StillSame(clusters, a, b, key);
  }

  /** For an entry whose Jobs the visits from `a` up to `b` may not create they are a move of the
      cluster. */
  ghost predicate Apart(ctx: Context, start: Fold, visits: seq<Visit>, a: nat, b: nat, st: ExecState) {
    AtRest(st) || forall i | 0 <= i < |st.nodes| && st.nodes[i].jobName != "" ::
      NoneCreates(ctx, start, visits, a, b, st.nodes[i].jobName)
  }

  lemma TurnsAreMoves(ctx: Context, start: Fold, visits: seq<Visit>, a: nat, b: nat, site: Site, st: ExecState)
    requires NoDuplicates(Keys(start.views)) && DistinctCerts(visits) && a <= b <= |visits|
    requires Apart(ctx, start, visits, a, b, st)
    ensures Next(site, World(ctx.spec, st, JobsAt(ctx, start, visits, a)), ClusterMoves,
                 World(ctx.spec, st, JobsAt(ctx, start, visits, b)))
  {
    if !AtRest(st) {
      forall i | 0 <= i < |st.nodes| && st.nodes[i].jobName != ""
        ensures StaysFinal(JobsAt(ctx, start, visits, a), JobsAt(ctx, start, visits, b), st.nodes[i].jobName)
      {
        TurnsLeaveAlone(ctx, start, visits, a, b, st.nodes[i].jobName);
      }
    }
  }

  // ---- Names of different certificates ------------------------------------------------------

  /** The selection is limited to one namespace, and Kubernetes names have no slash. */
  ghost predicate Plain(ctx: Context, visits: seq<Visit>) {
    && '/' !in ctx.cjob && (forall n | n in JobNames(ctx.spec.jobs) :: '/' !in n)
    && (forall j | 0 <= j < |visits| :: '/' !in visits[j].cert.name)
    && (forall i, j | 0 <= i < j < |visits| :: visits[i].cert.namespace == visits[j].cert.namespace)
  }

  /** The identifiers of the runs a reconcile may see for a certificate. */
  ghost function RunIDs(ctx: Context, start: Fold, visits: seq<Visit>, j: nat): set<string>
    requires j < |visits|
  {
    {EntryOf(start, visits, j).runID, OutOf(ctx, start, visits, j).state.runID}
  }

  /** The assumption on the hash: it tells the keys of the Jobs of one reconcile apart. */
  ghost predicate TellsApart(ctx: Context, start: Fold, visits: seq<Visit>, i: nat, j: nat)
    requires i < |visits| && j < |visits|
  {
    forall r, q, n, m | r in RunIDs(ctx, start, visits, i) && q in RunIDs(ctx, start, visits, j)
                        && n in JobNames(ctx.spec.jobs) && m in JobNames(ctx.spec.jobs) ::
      Naming.Distinguishes(ctx.hash, Naming.HashedKey(ctx.cjob, visits[i].cert.name, n, r),
                                     Naming.HashedKey(ctx.cjob, visits[j].cert.name, m, q))
  }

  ghost predicate AllTold(ctx: Context, start: Fold, visits: seq<Visit>) {
    forall i, j | 0 <= i < |visits| && 0 <= j < |visits| :: TellsApart(ctx, start, visits, i, j)
  }

  lemma NamesDiffer(visits: seq<Visit>, i: nat, j: nat)
    requires DistinctCerts(visits) && i < |visits| && j < |visits| && i != j
    requires forall i, j | 0 <= i < j < |visits| :: visits[i].cert.namespace == visits[j].cert.namespace
    ensures visits[i].cert.name != visits[j].cert.name
  {
    if i < j {
      assert CertKey(visits[i].cert) != CertKey(visits[j].cert);
    } else {
      assert CertKey(visits[j].cert) != CertKey(visits[i].cert);
    }
  }

  /** The Jobs a run under way tracks are the ones named after this certificate. */
  ghost predicate OwnNames(ctx: Context, cert: Certificate, st: ExecState) {
    AtRest(st) || forall i | 0 <= i < |st.nodes| && st.nodes[i].jobName != "" ::
      && st.nodes[i].name in JobNames(ctx.spec.jobs)
      && st.nodes[i].jobName == Naming.JobName(ctx.hash, ctx.lower, ctx.cjob, cert.name, st.nodes[i].name, st.runID)
  }

  lemma InvOwnNames(ctx: Context, cert: Certificate, st: ExecState, jobs: Jobs)
    requires Inv(SiteOf(ctx, cert), World(ctx.spec, st, jobs))
    ensures OwnNames(ctx, cert, st)
  {
    var run := RunAt(SiteOf(ctx, cert), ctx.spec, "", st.runID);
    if !AtRest(st) {
      forall i | 0 <= i < |st.nodes| && st.nodes[i].jobName != ""
        ensures st.nodes[i].name in JobNames(ctx.spec.jobs) && st.nodes[i].jobName == run.nameOf(st.nodes[i].name)
      {
        assert NodeInv(run, st.nodes[i], jobs);
        assert st.nodes[i].name in NodeNames(st.nodes);
      }
    }
  }

  /** What a pass may create is named after its own certificate. */
  lemma CreatesOwnNames(ctx: Context, start: Fold, visits: seq<Visit>, j: nat, key: string) returns (n: string)
    requires j < |visits| && Accepted(ctx.spec) && InvOf(ctx, start, visits, j)
    requires MayCreate(ctx, visits[j], EntryOf(start, visits, j), key)
    ensures n in JobNames(ctx.spec.jobs)
    ensures key == Naming.JobName(ctx.hash, ctx.lower, ctx.cjob, visits[j].cert.name, n,
                                  OutOf(ctx, start, visits, j).state.runID)
  {
    var v, st := visits[j], EntryOf(start, visits, j);
    var site, e := SiteOf(ctx, v.cert), EventOf(v, true);
    var begun := AfterHash(ctx.spec, v.cert.secretName, st, v.input.hash);
    BegunInv(site, World(ctx.spec, st, start.jobs), e);
    WorkResult(site, World(ctx.spec, st, JobsAt(ctx, start, visits, j)), e);
    EnsuredNothing(ctx.spec.jobs, begun.nodes);
    n :| n in NodeNames(begun.nodes) && key == RunOf(ctx, v.cert.name, v.cert.secretName, begun.runID).nameOf(n);
  }

  /** The stored run of certificate `j` satisfies the invariant before the reconcile. */
  ghost predicate InvOf(ctx: Context, start: Fold, visits: seq<Visit>, j: int)
    requires 0 <= j < |visits|
  {
    Inv(SiteOf(ctx, visits[j].cert), World(ctx.spec, EntryOf(start, visits, j), start.jobs))
  }

  ghost predicate AllInv(ctx: Context, start: Fold, visits: seq<Visit>) {
    forall j {:trigger InvOf(ctx, start, visits, j)} | 0 <= j < |visits| :: InvOf(ctx, start, visits, j)
  }

  /** What is assumed of a reconcile: an accepted spec, plain names, a hash that tells them apart,
      and a status that was built by earlier ones. */
  ghost predicate Sound(ctx: Context, start: Fold, visits: seq<Visit>) {
    && NoDuplicates(Keys(start.views)) && DistinctCerts(visits)
    && Accepted(ctx.spec) && Naming.IsHexHash(ctx.hash) && Plain(ctx, visits) && AllTold(ctx, start, visits)
    && AllInv(ctx, start, visits)
  }

  /** Certificate `j` may not create a Job the run of certificate `k` tracks. */
  lemma Foreign(ctx: Context, start: Fold, visits: seq<Visit>, k: nat, j: nat, st: ExecState, i: nat)
    requires Sound(ctx, start, visits) && k < |visits| && j < |visits| && j != k
    requires OwnNames(ctx, visits[k].cert, st) && st.runID in RunIDs(ctx, start, visits, k)
    requires !AtRest(st) && i < |st.nodes| && st.nodes[i].jobName != ""
    ensures !MayCreate(ctx, visits[j], EntryOf(start, visits, j), st.nodes[i].jobName)
  {
    if MayCreate(ctx, visits[j], EntryOf(start, visits, j), st.nodes[i].jobName) {
      assert InvOf(ctx, start, visits, j);
      var n := CreatesOwnNames(ctx, start, visits, j, st.nodes[i].jobName);
      NamesDiffer(visits, k, j);
      assert TellsApart(ctx, start, visits, k, j);
      Naming.JobNameIdentifies(ctx.hash, ctx.lower,
                               ctx.cjob, visits[k].cert.name, st.nodes[i].name, st.runID,
                               ctx.cjob, visits[j].cert.name, n, OutOf(ctx, start, visits, j).state.runID);
    }
  }

  lemma OthersApart(ctx: Context, start: Fold, visits: seq<Visit>, k: nat, a: nat, b: nat, st: ExecState)
    requires Sound(ctx, start, visits) && k < |visits| && b <= |visits| && !(a <= k < b)
    requires OwnNames(ctx, visits[k].cert, st) && st.runID in RunIDs(ctx, start, visits, k)
    ensures Apart(ctx, start, visits, a, b, st)
  {
    if !AtRest(st) {
      forall i | 0 <= i < |st.nodes| && st.nodes[i].jobName != ""
        ensures NoneCreates(ctx, start, visits, a, b, st.nodes[i].jobName)
      {
        forall j | a <= j < b ensures !MayCreate(ctx, visits[j], EntryOf(start, visits, j), st.nodes[i].jobName) {
          Foreign(ctx, start, visits, k, j, st, i);
        }
      }
    }
  }

  // ---- One certificate of a reconcile -------------------------------------------------------

  /** The world of certificate `k` with this entry when visit `j` begins. */
  ghost function WorldAt(ctx: Context, start: Fold, visits: seq<Visit>, st: ExecState, j: nat): World
    requires j <= |visits|
  {
    World(ctx.spec, st, JobsAt(ctx, start, visits, j))
  }

  lemma OthersMove(ctx: Context, start: Fold, visits: seq<Visit>, k: nat, a: nat, b: nat, st: ExecState)
    requires Sound(ctx, start, visits) && k < |visits| && a <= b <= |visits| && !(a <= k < b)
    requires Inv(SiteOf(ctx, visits[k].cert), WorldAt(ctx, start, visits, st, a))
             && st.runID in RunIDs(ctx, start, visits, k)
    ensures Next(SiteOf(ctx, visits[k].cert), WorldAt(ctx, start, visits, st, a), ClusterMoves,
                 WorldAt(ctx, start, visits, st, b))
    ensures Inv(SiteOf(ctx, visits[k].cert), WorldAt(ctx, start, visits, st, b))
  {
    var site := SiteOf(ctx, visits[k].cert);
    InvOwnNames(ctx, visits[k].cert, st, JobsAt(ctx, start, visits, a));
    OthersApart(ctx, start, visits, k, a, b, st);
    TurnsAreMoves(ctx, start, visits, a, b, site, st);
    StepKeeps(site, WorldAt(ctx, start, visits, st, a), ClusterMoves, WorldAt(ctx, start, visits, st, b));
  }

  lemma OwnTurn(ctx: Context, start: Fold, visits: seq<Visit>, k: nat, written: bool)
    requires Sound(ctx, start, visits) && k < |visits|
    requires Inv(SiteOf(ctx, visits[k].cert), WorldAt(ctx, start, visits, EntryOf(start, visits, k), k))
    ensures var site, e := SiteOf(ctx, visits[k].cert), EventOf(visits[k], written);
            var w := WorldAt(ctx, start, visits, EntryOf(start, visits, k), k);
            var w' := WorldAt(ctx, start, visits, StoredOf(ctx, start, visits, k, written), k + 1);
            Next(site, w, e, w') && Unambiguous(site, w, e) && Inv(site, w')
  {
    var site, e := SiteOf(ctx, visits[k].cert), EventOf(visits[k], written);
    var w := WorldAt(ctx, start, visits, EntryOf(start, visits, k), k);
    assert Result(site, w, e) == OutOf(ctx, start, visits, k);
    TurnJobs(ctx, start, visits, k);
    assert TellsApart(ctx, start, visits, k, k);
    NamesAreDistinct(site, ctx.spec, e.secretName, OutOf(ctx, start, visits, k).state.runID, JobNames(ctx.spec.jobs));
    StepKeeps(site, w, e, WorldAt(ctx, start, visits, StoredOf(ctx, start, visits, k, written), k + 1));
  }

  /** For each certificate a whole reconcile is three steps of its own history: the cluster moves,
      its own pass, the cluster moves. */
  lemma EachIsAlone(ctx: Context, start: Fold, visits: seq<Visit>, k: nat, written: bool)
    returns (ws: seq<World>, es: seq<Event>)
    requires Sound(ctx, start, visits) && k < |visits|
    ensures var site := SiteOf(ctx, visits[k].cert);
            es == [ClusterMoves, EventOf(visits[k], written), ClusterMoves]
            && IsTrace(site, ws, es) && NoCollisions(site, ws, es) && Inv(site, ws[0]) && Inv(site, ws[3])
    ensures ws[0] == World(ctx.spec, EntryOf(start, visits, k), start.jobs)
    ensures ws[3] == World(ctx.spec, StoredOf(ctx, start, visits, k, written), AfterTurns(ctx, start, visits).jobs)
  {
    var site, e, n := SiteOf(ctx, visits[k].cert), EventOf(visits[k], written), |visits|;
    var old_, new_ := EntryOf(start, visits, k), StoredOf(ctx, start, visits, k, written);
    assert visits[..0] == [] && visits[..n] == visits;
    assert InvOf(ctx, start, visits, k);
    OthersMove(ctx, start, visits, k, 0, k, old_);
    OwnTurn(ctx, start, visits, k, written);
    OthersMove(ctx, start, visits, k, k + 1, n, new_);
    var a, b := WorldAt(ctx, start, visits, old_, 0), WorldAt(ctx, start, visits, old_, k);
    var c, d := WorldAt(ctx, start, visits, new_, k + 1), WorldAt(ctx, start, visits, new_, n);
    ws, es := TwoSteps(site, a, ClusterMoves, b, e, c);
    ws, es := ThreeSteps(site, ws, es, ClusterMoves, d);
  }

  /** A certificate seen for the first time starts from an entry of its own name with nothing run yet,
      which satisfies the invariant. */
  lemma NewEntryIsFresh(ctx: Context, start: Fold, visits: seq<Visit>, k: nat)
    requires k < |visits| && CertKey(visits[k].cert) !in Keys(start.views)
    ensures var st := EntryOf(start, visits, k);
            Fresh(st) && st.namespace == visits[k].cert.namespace && st.name == visits[k].cert.name
    ensures InvOf(ctx, start, visits, k)
  {
    FreshInv(SiteOf(ctx, visits[k].cert), World(ctx.spec, EntryOf(start, visits, k), start.jobs));
  }

  /** So a reconcile keeps the invariant of every certificate it visits, over the cluster they all
      leave behind, whether its status is written or lost. */
  lemma ReconcileKeepsAll(ctx: Context, start: Fold, visits: seq<Visit>, written: bool)
    requires Sound(ctx, start, visits)
    ensures var jobs := AfterTurns(ctx, start, visits).jobs;
            forall k | 0 <= k < |visits| ::
              Inv(SiteOf(ctx, visits[k].cert), World(ctx.spec, StoredOf(ctx, start, visits, k, written), jobs))
  {
    forall k | 0 <= k < |visits|
      ensures Inv(SiteOf(ctx, visits[k].cert),
                  World(ctx.spec, StoredOf(ctx, start, visits, k, written), AfterTurns(ctx, start, visits).jobs))
    {
      var ws, es := EachIsAlone(ctx, start, visits, k, written);
    }
  }
}
