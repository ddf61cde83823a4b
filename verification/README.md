# Certificate workflows, modelled and proved in Dafny

certificate-job-operator runs a graph of Kubernetes Jobs for every cert-manager Certificate that
matches a CertificateJob, and runs it again when the inputs change. This project models its
controller, its template hardening and its admission webhook, and proves what they keep over every
sequence of reconcile passes, Job results, failed API calls and lost status writes.
`dafny verify dfyconfig.toml` checks all of it.

## How it is built

| file | holds |
|---|---|
| `StringOrder`, `DependencyGraph` | Go's string order and sort; graphs, Kahn's algorithm and the breadth-first search as loops |
| `JobSecurity`, `Webhook` | template policy, hardening and Secret injection as objects changed in place; admission |
| `Naming` | Job names |
| `WorkflowSpec` | the spec and the graph built from it |
| `Workflow` | one pass over one certificate as functions on values |
| `Engine`, `Controller` | the same as objects, loops and calls that fail, proved to compute those functions on every exit |
| `RunInvariant`, `Passes`, `Replay` | what a pass keeps and what it does |
| `Runs`, `RunProgress` | traces: passes interleaved with the cluster and with spec edits between runs |
| `Termination`, `Limits` | traces: when a run ends, and how many nodes run at once |
| `StatusLoop`, `SharedCluster` | the fold over all certificates, and that each of them lives as in `Runs` |
| `PassRules`, `InputRules`, `BuiltJobs` | what a pass must do, told over spec fields, phases and Job fields, without the functions that compute it |
| `Witnesses` | histories in which the code departs from its documentation |

A pass takes a `Faults` value that says which of its API calls fail: a pass reads the Job of a node
once while observing and once while scheduling, and creates it at most once, so the node's name
identifies the call. A creation can also succeed and report an error. A pass that stops in the middle
of scheduling is one of these with its status write lost.

## Assumptions

They are predicates named in the statements that need them; statements without them hold for all inputs.

- *Finished is final* (`Runs.FinishedIsFinal`): a finished Job of the run under way stays finished that
  way or is deleted, and a deleted one does not come back. The cluster may do anything to other Jobs.
- *Distinct names* (`RunInvariant.DistinctNames`): the nodes of one run get different Job names.
  `Runs.NamesAreDistinct` derives it from a hash that tells the keys of these nodes apart.
- *A sound reconcile* (`SharedCluster.Sound`): the certificates are in one namespace, their names and
  those of the nodes have no slash, and the hash tells the keys of the Jobs of one reconcile apart. With
  it the turns of other certificates meet *finished is final*, so that assumption is left for the cluster.
- The API stores one entry per certificate and one node per name (list-map keys of the types), and
  namespaces have no slash.
- During a run the spec is fixed; it may be edited between runs. `Engine` and `Passes.NoDeadlock` need no
  such assumption: they start from any stored node list.

## Where the code and its documentation differ

- The documentation lets independent branches go on after a failure under ContinueIndependent, and all
  branches under BestEffort (README.md:72-73). In the code one failed node makes the workflow Failed,
  which is final. `Witnesses.IndependentBranchIsStopped` is a history from the first sight of a
  certificate in which a branch is stopped, and `RunProgress.AfterFailure` gives the exact condition:
  nothing stays pending if and only if the pass that sees the failure can start every pending node at once.
- The documentation says that node creation respects `spec.parallelism` (README.md:98). The code counts
  only Jobs that report an active pod (certificatejob_controller.go:469-478), and a Job reports none right
  after its creation, which itself triggers the next pass (certificatejob_controller.go:1160).
  `Witnesses.LimitIsExceeded` is a history of two passes without any fault, from the first sight of a
  certificate, that ends with two running nodes under a limit of one. `Passes.LimitKeptIff` gives the
  exact condition for one pass and `Limits.ParallelismIff` for whole traces: no running node has an idle
  Job, or the idle ones and all runnable nodes together fit the free slots.
- The documentation counts a workflow of succeeded and skipped nodes as Succeeded (README.md:55). In a
  run that cannot come about: `Runs.SuccessIsComplete`.
- Workflow edges are validated by the controller only: `Webhook.AdmittedIsAccepted` says exactly what the
  webhook leaves to it, `Webhook.CycleIsAdmitted` is a concrete case.

## Model

| member | source | states |
|---|---|---|
| DependencyGraph.ValidateAcyclic | internal/controller/certificatejob_controller.go:633-672 | for every dependency map, with parallel edges and any order of walking the map and queue, no error exactly when every dependency is a node and no node reaches itself |
| DependencyGraph.CountEdges | internal/controller/certificatejob_controller.go:634-645 | in-degrees are the numbers of listed dependencies and the outgoing lists are the exact transpose, with multiplicity |
| DependencyGraph.DescendantNodes | internal/controller/certificatejob_controller.go:804-823 | terminates on every graph, cyclic ones too, and returns in strictly ascending order exactly the nodes reached from a root by one or more edges |
| DependencyGraph.MinimalMember | internal/controller/certificatejob_controller.go:633-672 | in an accepted graph every non-empty set of nodes has one that depends on no member of the set |
| DependencyGraph.OrderExists | internal/controller/certificatejob_controller.go:633-672 | the nodes of a closed acyclic graph can be listed so that each comes after all its dependencies |
| StringOrder.LessIff | internal/controller/certificatejob_controller.go:524-525 | names are ordered by their first differing character, a proper prefix first |
| WorkflowSpec.BuildWorkflowGraph | internal/controller/certificatejob_controller.go:585-631 | builds both directions exactly when the spec is accepted; otherwise the error names the first thing wrong, everything before it being in order |
| WorkflowSpec.ValidateReservedLabels | internal/jobsecurity/security.go:132-139 | no error exactly when no label key is one of the operator's |
| WorkflowSpec.ExactTranspose | internal/controller/certificatejob_controller.go:615-624 | an edge listed k times is stored k times under both of its ends |
| WorkflowSpec.DescendantIffAncestor | internal/controller/certificatejob_controller.go:622-623 | a node is downstream of another exactly when that one is among its transitive dependencies |
| WorkflowSpec.AcceptedIff | internal/controller/certificatejob_controller.go:585-631 | a spec is accepted exactly if it has templates, each with a name, without the operator's six labels and doing nothing forbidden, with different names, and the nodes can be listed so that every edge leads forward |
| Naming.SanitizeDNS1123 | internal/controller/certificatejob_controller.go:876-896 | the loop over the runes computes the trimmed, dashed string |
| Naming.SanitizedKeepsLabels | internal/controller/certificatejob_controller.go:876-896 | a string already fit for a label is not changed |
| Naming.SanitizedExact | internal/controller/certificatejob_controller.go:876-896 | characters are mapped one by one, lower-case letters, digits and dashes kept and all others made a dash, the dashes at both ends dropped, and "job" if nothing is left |
| Naming.BuildJobName | internal/controller/certificatejob_controller.go:859-874 | truncation and trimming in steps give the specified name |
| Naming.JobNameIsLabel | internal/controller/certificatejob_controller.go:859-903 | every name is a DNS label of at most 63 characters that starts and ends with a letter or digit (section 2.1 of RFC 1123, section 2.3.4 of RFC 1035), whatever the parts contain |
| Naming.JobNameExact | internal/controller/certificatejob_controller.go:859-874 | the name is the longest beginning of the sanitized text within fifty characters that does not end in a dash, then a dash and twelve digits of the hash of the four parts |
| Naming.JobNameIdentifies | internal/controller/certificatejob_controller.go:859-874 | equal names come from the same CertificateJob, Certificate, node and run, for slash-free parts and a shortened hash that tells the two keys apart |
| Naming.JobNameKeepsParts | internal/controller/certificatejob_controller.go:859-874 | four short labels can be read off the name, followed by the hash |
| JobSecurity.ValidateJobTemplateSecurity | internal/jobsecurity/security.go:19-84 | no error exactly when the template is permitted; an error names something the template does |
| JobSecurity.PermittedIff | internal/jobsecurity/security.go:19-84 | permitted is exactly: none of the listed violations, each stated over the fields, occurs in the Pod, a volume or a container |
| JobSecurity.ContainsCapability | internal/jobsecurity/security.go:119-126 | finds ALL among the dropped capabilities |
| JobSecurity.ApplyContainerDefaults | internal/jobsecurity/security.go:141-163 | the branches compute the defaulted container |
| JobSecurity.JobSpecObject.ApplyJobSecurityDefaults | internal/jobsecurity/security.go:86-117 | in place, over Pod and both container lists, gives the defaulted template |
| JobSecurity.JobSpecObject.InjectCertificateSecret | internal/controller/certificatejob_controller.go:921-964 | in place, gives the template with the Secret's volume and mounts |
| JobSecurity.HardeningIsIdempotent | internal/jobsecurity/security.go:86-117 | hardening again, with any TTL, changes nothing |
| JobSecurity.HardenedIffPermitted | internal/jobsecurity/security.go:19-117 | the defaulted template is permitted, and fully hardened, exactly when the original with its token setting cleared is permitted |
| JobSecurity.HardeningKeepsChoices | internal/jobsecurity/security.go:86-163 | but for the token every setting of the template, its Pod and its containers is kept field by field, and every gap gets its documented value: RuntimeDefault, no escalation, non-root, no service links, the default TTL, ALL among the dropped capabilities |
| JobSecurity.OrderMattersForToken | internal/jobsecurity/security.go:34-36 | validating before or after hardening differs for a template that asks for the token |
| JobSecurity.InjectionKeepsHardening | internal/controller/certificatejob_controller.go:921-949 | a hardened template stays hardened and every container mounts the Secret read-only |
| JobSecurity.InjectionAddsOnly | internal/controller/certificatejob_controller.go:921-964 | the first volume named certificate-input gets the Secret or one is appended, every container gets the read-only mount at /var/run/certificate-input in place of the first of that name or at the end, and nothing else changes |
| Webhook.CertificateJobObject.Default | internal/webhook/v1alpha1/certificatejob_webhook.go:46-67 | in place, fields and every template get the defaulted values |
| Webhook.ValidateCertificateJob | internal/webhook/v1alpha1/certificatejob_webhook.go:93-118 | accepts exactly the admitted specs |
| Webhook.AdmittedIsAccepted | internal/webhook/v1alpha1/certificatejob_webhook.go:93-118 | of an admitted spec the controller refuses exactly duplicate names, bad edges and cycles |
| Webhook.CycleIsAdmitted | internal/webhook/v1alpha1/certificatejob_webhook.go:93-118 | a cyclic spec the webhook admits and the controller refuses |
| Webhook.DefaultingIsIdempotent | internal/webhook/v1alpha1/certificatejob_webhook.go:46-67 | defaulting twice is defaulting once |
| Webhook.DefaultedAcceptedIff | internal/webhook/v1alpha1/certificatejob_webhook.go:46-67 | the controller accepts a defaulted spec exactly if it would accept the submitted one with its token settings cleared |
| Webhook.DefaultedAdmittedIff | internal/webhook/v1alpha1/certificatejob_webhook.go:46-118 | the validator admits a defaulted spec exactly if there are templates, a declared parallelism is at least one, and each template with its token setting cleared is good |
| Webhook.DefaultingFillsGaps | internal/webhook/v1alpha1/certificatejob_webhook.go:46-67 | missing parallelism, TTL and policy become 1, 3600 and StopDownstream, templates are hardened with the TTL of the spec, and everything else is kept |
| Webhook.SameJob | internal/controller/certificatejob_controller.go:552-564 | the scheduler's own hardening of a stored template changes nothing: same Job as from the submitted spec |
| Webhook.DefaultingKeepsMeaning | internal/webhook/v1alpha1/certificatejob_webhook.go:46-67 | for every state, cluster and fault a pass over the defaulted spec does what a pass over the submitted one does |
| Engine.Cluster.Get | internal/controller/certificatejob_controller.go:442-453 | found, absent or failed read |
| Engine.Cluster.Create | internal/controller/certificatejob_controller.go:568-570 | creates under a free name only; refused and lost answers |
| Engine.NodeStateMap | internal/controller/certificatejob_controller.go:825-832 | every node's name leads to the last node of that name, and no other key is there |
| Engine.EnsureWorkflowNodeStates | internal/controller/certificatejob_controller.go:417-425 | a Pending node is appended for every template without one |
| Engine.ObserveWorkflowNodeJobs | internal/controller/certificatejob_controller.go:427-482 | nodes up to the first failing read are updated and no others; the count of taken slots and the set of failed nodes |
| Engine.ObserveNode | internal/controller/certificatejob_controller.go:445-478 | the branches for one Job, in their order |
| Engine.ApplyFailurePolicy | internal/controller/certificatejob_controller.go:763-802 | ContinueIndependent skips exactly the pending strict descendants of failed nodes, BestEffort none, otherwise every pending node; nothing else changes and every lookup succeeds |
| Engine.RunnableNodes | internal/controller/certificatejob_controller.go:724-761 | exactly the pending nodes whose dependencies all let them run, in any map order, every lookup succeeding |
| Engine.JobTemplatesByName | internal/controller/certificatejob_controller.go:503-509 | the template stored last under a name, the empty one for a missing name |
| Engine.BuildJob | internal/controller/certificatejob_controller.go:552-564 | labels, hardens and injects a copy of the template |
| Engine.EnsureJob | internal/controller/certificatejob_controller.go:536-572 | an existing Job is adopted, a missing one created, with each way the calls can fail |
| Engine.ScheduleRunnableNodes | internal/controller/certificatejob_controller.go:511-583 | nodes, cluster, count and error on every exit of the loop |
| Engine.DeriveWorkflowPhase | internal/controller/certificatejob_controller.go:674-710 | one loop of flags gives the precedence Failed, Running, Pending, Succeeded |
| Engine.ReconcileCertificateRun | internal/controller/certificatejob_controller.go:377-415 | for any stored node list, nodes, cluster and error of the pass; the phase is derived only without an error; the two flags exactly, on an error too |
| Engine.InitializeNodeStates | internal/controller/certificatejob_controller.go:712-722 | one Pending node for each template, by name |
| Engine.ApplyInputHashTransition | internal/controller/certificatejob_controller.go:283-306 | a run begins from no hash, or from a finished run with another hash, and otherwise nothing changes |
| Engine.ReconcileObservedCertificate | internal/controller/certificatejob_controller.go:212-281 | state, cluster and report of one pass over one certificate, with every early return |
| RunInvariant.EnsuredCovers | internal/controller/certificatejob_controller.go:385-386 | for any stored list, also from before an edit of the spec, every template has a node and names stay unique |
| RunInvariant.PolicyKeeps | internal/controller/certificatejob_controller.go:389-396 | reading the Jobs and applying the policy keeps the run invariant and leaves no pending node downstream of a failed one |
| RunInvariant.RunnableDependencies | internal/controller/certificatejob_controller.go:737-753 | though a skipped dependency counts as met, no runnable node has one |
| RunInvariant.PassKeeps | internal/controller/certificatejob_controller.go:377-415 | the run invariant holds after a pass on every exit, for the state in memory and for the stored state if the write is lost |
| Passes.RunnableMayStart | internal/controller/certificatejob_controller.go:724-823 | every transitive dependency of a runnable node is a stored node that was given its own Job, was found succeeded in this pass and has a complete Job in the cluster; under BestEffort every direct dependency is a stored node that was given its own Job and was found succeeded or failed |
| Passes.NewJobMayStart | internal/controller/certificatejob_controller.go:511-583 | every new Job of a pass is the Job of such a node |
| Passes.NoDeadlock | internal/controller/certificatejob_controller.go:394-414 | for every accepted graph and every stored list, a pass without error leaves the workflow Pending exactly if nothing failed or runs and some node has no known phase |
| PassRules.JobDecides | internal/controller/certificatejob_controller.go:440-479 | over the fields of a Job: complete means Succeeded, failed and not complete means Failed, neither with an active pod means Running with a slot taken, neither without one takes a slot exactly for a node still Pending, and a missing Job means Failed |
| PassRules.PolicyDecides | internal/controller/certificatejob_controller.go:763-823 | exactly those pending nodes are skipped for which a node with a lost or failed Job exists, under ContinueIndependent among their transitive dependencies, under BestEffort none |
| PassRules.StartedIff | internal/controller/certificatejob_controller.go:511-583 | over listed edges and phases: a pass without error starts a node if and only if it is pending, each dependency is Succeeded, Skipped or under BestEffort Failed, and fewer such nodes than the declared parallelism leaves room for have a smaller name; it is then Running with its own existing Job, and all others stay as they were |
| PassRules.ReadErrorStops | internal/controller/certificatejob_controller.go:389-392 | a Job that cannot be read ends the pass with the nodes before it updated, the others untouched and nothing created |
| PassRules.ScheduleErrorStops | internal/controller/certificatejob_controller.go:536-572 | a failing call ends scheduling at a node whose turn had come, and exactly the ready nodes before it by name are started |
| PassRules.DeclaredLimitKeptIff | internal/controller/certificatejob_controller.go:398-405 | the exact condition for keeping the declared parallelism, over the conditions and active pods of the Jobs |
| Passes.RunningCount | internal/controller/certificatejob_controller.go:398-405 | after a pass that read every Job the running nodes number exactly those that take a slot, those already running with an idle Job, and those started |
| Passes.LimitKeptIff | internal/controller/certificatejob_controller.go:463-479 | a pass without error leaves at most the limit running if and only if no more than the limit are active and no running node has an idle Job or these and all runnable nodes fit the free slots |
| Passes.ParallelismBound | internal/controller/certificatejob_controller.go:398-405 | running nodes number at most the limit or what is active, plus nodes already running whose Job is idle |
| Passes.SmallestFirst | internal/controller/certificatejob_controller.go:524-580 | a pass without error starts exactly the smallest runnable names that fit the free slots |
| Passes.BranchesContinueIff | internal/controller/certificatejob_controller.go:394-414 | no node stays pending exactly if every pending node can run and has a slot |
| Replay.PassConverges | internal/controller/certificatejob_controller.go:511-583 | from any cluster between the old one and the undisturbed result a disturbed pass stays between them and an undisturbed one ends there |
| Replay.ReplayIsSafe | internal/controller/certificatejob_controller.go:84-92 | after any number of passes that stopped anywhere or lost their write, a pass from the old status reaches the state and cluster of one undisturbed pass |
| Replay.CertPassGrows | internal/controller/certificatejob_controller.go:511-583 | a pass removes and changes no Job |
| Runs.StepKeeps | internal/controller/certificatejob_controller.go:212-281 | the invariant of a certificate survives every event |
| Runs.TraceKeeps | internal/controller/certificatejob_controller.go:76-137 | the invariant holds along every trace |
| Runs.NamesAreDistinct | internal/controller/certificatejob_controller.go:859-874 | distinct names follow from a hash that tells the keys of the run's nodes apart |
| Runs.PrecedenceSafety | internal/controller/certificatejob_controller.go:377-415 | in every trace, when a pass adds a Job, also one whose creation reports an error, it is the Job of a node, and every transitive dependency of that node is stored with its own Job, found succeeded, and complete in the cluster; under BestEffort every direct one is stored with its own Job and found succeeded or failed |
| Runs.SuccessIsComplete | internal/controller/certificatejob_controller.go:674-710 | a succeeded workflow has every node succeeded; a skipped node never stands without a failed one |
| Runs.EveryExitIsConsistent | internal/controller/certificatejob_controller.go:377-415 | on every exit a node has its own Job name exactly when Running, Succeeded or Failed, dependencies of nodes with a Job have finished, and a skipped node has a failed node, under ContinueIndependent a transitive dependency, as its cause |
| RunProgress.BoundedProgress | internal/controller/certificatejob_controller.go:427-482 | a run of n nodes changes phases in at most 3n steps of any trace, the pass that begins it included |
| RunProgress.RunMovesOn | internal/controller/certificatejob_controller.go:427-482 | within a run no node returns to Pending or is retried and no Job name is cleared |
| RunProgress.NoSecondJob | internal/controller/certificatejob_controller.go:527-580 | once the status tracks a node's Job no later pass of the run creates it again, not even after it was deleted |
| RunProgress.OnlyClusterDeletes | internal/controller/certificatejob_controller.go:536-572 | a Job can be created twice only if the cluster deleted it in between |
| Termination.PassAdvances | internal/controller/certificatejob_controller.go:377-415 | a pass without faults over finished Jobs ends the run or starts a pending node |
| Termination.RunTerminates | internal/controller/certificatejob_controller.go:377-415 | a run of n nodes is over once n + 1 passes went well (no fault, status stored, no tracked Job still at work), the one that begins it included, whatever failing, lost or early passes and moves of the cluster come between them |
| Termination.PassStaysWell | internal/controller/certificatejob_controller.go:427-482 | a pass over Jobs none of which is missing or failed makes no node failed |
| Termination.RunSucceeds | internal/controller/certificatejob_controller.go:674-710 | a run none of whose Jobs is found missing or failed never ends otherwise than Succeeded, and after n + 1 good passes it has succeeded with every node succeeded |
| Termination.BegunNotFailed | internal/controller/certificatejob_controller.go:290-299 | a run that begins satisfies what RunSucceeds asks of its start, and has as many nodes as there are template names |
| Limits.PassFits | internal/controller/certificatejob_controller.go:398-405 | a run within the limit stays within it over a pass that has room or cannot read every Job, and over a pass without error only then |
| Limits.ParallelismSafety | internal/controller/certificatejob_controller.go:398-405 | in every trace whose passes have room, a run under way never has more running nodes than the limit, with faults and lost writes anywhere |
| Limits.ParallelismIff | internal/controller/certificatejob_controller.go:463-479 | in a trace without errors the passes keep to the limit if and only if they all have room |
| RunProgress.HashChanges | internal/controller/certificatejob_controller.go:290-305 | hash and run identifier change only from empty or from a finished run, to another hash, the one computed in that pass |
| InputRules.RunBeginsIff | internal/controller/certificatejob_controller.go:283-306 | a run begins exactly if there is no hash, or the phase is Succeeded, Failed or Skipped and the hash is another one; it takes the hash, its twelve-character prefix, the Secret's name and a node for each template in order of name, none further than started; otherwise these fields stay |
| InputRules.InputStays | internal/controller/certificatejob_controller.go:212-306 | no other event changes the hash or the run identifier |
| InputRules.PhaseStored | internal/controller/certificatejob_controller.go:257-280 | a finished run without new input is left as it is; any other pass stores the phase its nodes tell, or Pending if one of its calls failed |
| InputRules.NoInputStored | internal/controller/certificatejob_controller.go:221-255 | no Secret name makes the entry Failed; a Secret that cannot be read or hashed leaves a finished run and makes any other Pending; nodes and Jobs are not touched |
| RunProgress.RunDiscipline | internal/controller/certificatejob_controller.go:283-306 | in every trace the stored hash is the one started last, the run identifier is its twelve-character prefix, and two runs in a row have different inputs |
| RunProgress.FinishedIsFixed | internal/controller/certificatejob_controller.go:230-262 | any number of passes with the same hash, an unreadable Secret or a hash error leave a finished run as it is and create no Job |
| RunProgress.FailureEndsRun | internal/controller/certificatejob_controller.go:697-699 | a failed node makes the workflow Failed with the pass that sees it |
| RunProgress.AfterFailure | internal/controller/certificatejob_controller.go:257-262 | after a failure the nodes stay as that pass left them until there is new input, none pending exactly if that pass could start them all |
| Witnesses.IndependentBranchIsStopped | internal/controller/certificatejob_controller.go:697-699 | for every three-node workflow without edges, one slot and ContinueIndependent, a history from the first sight of the certificate that ends Failed with an independent node still pending |
| Witnesses.LimitIsExceeded | internal/controller/certificatejob_controller.go:469-478 | for every such workflow, a history of two passes without faults from the first sight of the certificate that ends with more running nodes than the limit |
| Witnesses.ExampleIsIndependent | internal/controller/certificatejob_controller.go:585-631 | such a workflow exists and is accepted |
| RunProgress.NewJobIsHardened | internal/controller/certificatejob_controller.go:552-564 | every Job built for an accepted spec is hardened and mounts the Secret, also for a node whose template is gone |
| RunProgress.CreatedJobsAreHardened | internal/controller/certificatejob_controller.go:542-572 | so is every Job any pass of any trace adds to the cluster, and it does nothing the policy forbids |
| BuiltJobs.TemplateIsOwn | internal/controller/certificatejob_controller.go:503-509 | each template is found under its own name and no other name leads to one |
| BuiltJobs.NewJobBuilt | internal/controller/certificatejob_controller.go:552-564 | field by field what a new Job has from its template, the TTL of the spec, the operator's six labels and the Secret |
| BuiltJobs.CreatedFromOwnTemplate | internal/controller/certificatejob_controller.go:532-572 | every Job any pass of any trace adds carries the name of a node of its run and is built, field by field, from the template of that node |
| StatusLoop.KeyIdentifies | internal/controller/certificatejob_controller.go:1061-1063 | a key stands for one certificate |
| StatusLoop.ReportIsExact | internal/controller/certificatejob_controller.go:212-281 | the report of a pass asks for another exactly if the state it leaves waits or runs, and reports a failure exactly if that state is Failed, other than one Failed before whose input could not be read or hashed |
| StatusLoop.FoldVisited | internal/controller/certificatejob_controller.go:121-128 | each certificate ends with the state its own pass made from its own old entry |
| StatusLoop.FoldUntouched | internal/controller/certificatejob_controller.go:121-128 | entries of other certificates are not touched by the loop |
| StatusLoop.OneEntryEach | internal/controller/certificatejob_controller.go:116-130 | exactly one entry for each matching certificate and none else, survivors first in their old order |
| StatusLoop.SummaryIsExact | internal/controller/certificatejob_controller.go:118-136 | the merged report over any number of certificates is exact |
| SharedCluster.EachIsAlone | internal/controller/certificatejob_controller.go:121-128 | for each certificate a whole reconcile is three steps of its own trace: a move of the cluster, its own pass, a move of the cluster, whether the status is written or lost |
| SharedCluster.ReconcileKeepsAll | internal/controller/certificatejob_controller.go:116-136 | a reconcile keeps the run invariant of every certificate it visits, over the cluster all of them leave behind |
| SharedCluster.NewEntryIsFresh | internal/controller/certificatejob_controller.go:193-210 | a certificate without an entry starts from a fresh one of its own name, which satisfies the invariant |
| SharedCluster.Foreign | internal/controller/certificatejob_controller.go:859-874 | the pass of one certificate cannot create a Job that the run of another tracks |
| SharedCluster.TurnLeavesAlone | internal/controller/certificatejob_controller.go:511-583 | a pass leaves every Job as it is whose name is not that of a node of its own run |
| Controller.ObservedStateIndex | internal/controller/certificatejob_controller.go:184-191 | the index holds exactly the keys of the list, each at the last entry with that key |
| Controller.EnsureObservedCertificateState | internal/controller/certificatejob_controller.go:193-210 | the entry is found or appended, and index and list still agree |
| Controller.FilterObservedStates | internal/controller/certificatejob_controller.go:308-320 | keeps exactly the matched entries, in order |
| Controller.VisitAll | internal/controller/certificatejob_controller.go:116-128 | the loop with its growing list and index computes the fold |
| Controller.ReconcileCertificateJob | internal/controller/certificatejob_controller.go:102-137 | invalid spec and failed listing touch no entry; otherwise one entry per certificate, requeue and Progressing exactly if some entry waits or runs, Degraded exactly if some pass saw a failure |

## Left out

- Messages, timestamps, events and condition transition times carry no decision; of the conditions the three statuses and the reason of Ready are kept.
- SHA-256, JSON and Unicode lower-casing are parameters; a spec that cannot be serialized for hashing is not modelled.
- Label and annotation values: only the keys of labels matter to validation, and the labels of created Jobs are reduced to keys.
- Selecting and sorting certificates, watches, event mapping, manager setup, TLS and metrics are library wiring; the loop is given the matching certificates.
- Widths of integers: parallelism and TTL are unbounded here, the API limits them to 20 and 604800.
- A pass sees the cluster at one moment. Reads of different Jobs at different moments are the same as a cluster that changed the later ones first, since Jobs change independently.
- Pointers into Go slices are positions or objects here; reallocation of a slice by append is not modelled.
- Limits.ParallelismSafety: bounds the nodes recorded as Running, because Jobs created by a pass whose status write is lost are outside every count the code keeps.
- Runs.TraceKeeps: spec edits during a run are not events of a trace, because the code then mixes two graphs in one run; lookups still succeed then (RunInvariant.EnsuredCovers, Engine.ReconcileCertificateRun).
