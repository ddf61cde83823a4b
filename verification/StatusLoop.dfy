/** All certificates of one CertificateJob: the loop that folds their passes into one status, the
    index that speeds it up, and the conditions that summarize it. */
module StatusLoop {
  import opened StringOrder
  import opened Workflow
  import Naming

  // ---- Keys ---------------------------------------------------------------------------------

  /** `certificateKey`. */
  function Key(namespace: string, name: string): string {
    namespace + "/" + name
  }

  function EntryKey(st: ExecState): string { Key(st.namespace, st.name) }

  function CertKey(cert: Certificate): string { Key(cert.namespace, cert.name) }

  /** Namespaces have no slash, so a key stands for one certificate. */
  lemma KeyIdentifies(a: Certificate, b: Certificate)
    requires '/' !in a.namespace && '/' !in b.namespace && CertKey(a) == CertKey(b)
    ensures a.namespace == b.namespace && a.name == b.name
  {
    Naming.FirstSlash(a.namespace, a.name, b.namespace, b.name);
  }

  ghost function Keys(views: seq<ExecState>): seq<string> {
    seq(|views|, i requires 0 <= i < |views| => EntryKey(views[i]))
  }

  // ---- The loop on values -------------------------------------------------------------------

  /** What the pass learns and which of its calls fail, per certificate. */
  datatype Visit = Visit(cert: Certificate, input: Input, faults: Faults)

  datatype Fold = Fold(views: seq<ExecState>, jobs: Jobs, progress: Progress)

  function FreshEntry(cert: Certificate): ExecState {
    ExecState(cert.namespace, cert.name, "", "", "", Pending, [])
  }

  /** The list with an entry for the certificate, appended if there was none. */
  ghost function WithEntry(views: seq<ExecState>, cert: Certificate): (r: seq<ExecState>)
    ensures CertKey(cert) in Keys(r)
  {
    if CertKey(cert) in Keys(views) then views
    else
      var r := views + [FreshEntry(cert)];
      assert Keys(r)[|views|] == CertKey(cert);
      r
  }

  /** Where a key is in a list of keys. */
  ghost function Place(keys: seq<string>, key: string): (i: nat)
    requires key in keys
    ensures i < |keys| && keys[i] == key
  {
    var i :| 0 <= i < |keys| && keys[i] == key;
    i
  }

  /** One turn of the loop. */
  ghost function Turn(ctx: Context, s: Fold, v: Visit): Fold {
    var views := WithEntry(s.views, v.cert);
    var i := Place(Keys(views), CertKey(v.cert));
    var out := CertPass(ctx, v.cert, v.input, views[i], s.jobs, v.faults);
    Fold(views[i := out.state], out.jobs, s.progress.Merge(out.progress))
  }

  ghost function AfterTurns(ctx: Context, start: Fold, visits: seq<Visit>): Fold {
    if visits == [] then start
    else Turn(ctx, AfterTurns(ctx, start, visits[..|visits| - 1]), visits[|visits| - 1])
  }

  /** `filterObservedStates`: entries of unmatched certificates go, the others keep their order. */
  ghost function Kept(views: seq<ExecState>, keys: set<string>): seq<ExecState> {
    if views == [] then []
    else
      var last := views[|views| - 1];
      Kept(views[..|views| - 1], keys) + if EntryKey(last) in keys then [last] else []
  }

  ghost function VisitKeys(visits: seq<Visit>): set<string> {
    set i | 0 <= i < |visits| :: CertKey(visits[i].cert)
  }

  ghost predicate DistinctCerts(visits: seq<Visit>) {
    forall i, j | 0 <= i < j < |visits| :: CertKey(visits[i].cert) != CertKey(visits[j].cert)
  }

  // ---- What one pass reports ----------------------------------------------------------------

  ghost predicate Busy(st: ExecState) { st.phase.Pending? || st.phase.Running? }

  /** The report of a pass and the state it leaves say the same: a requeue exactly for a workflow
      that waits or runs, a failure exactly for a failed one, except one that had failed already
      and whose Secret could not be read or hashed now. */
  lemma ReportIsExact(ctx: Context, cert: Certificate, input: Input, st: ExecState, jobs: Jobs, faults: Faults)
    ensures var out := CertPass(ctx, cert, input, st, jobs, faults);
            && (out.progress.needsRequeue <==> Busy(out.state))
            && (out.progress.anyInProgress <==> Busy(out.state))
            && (out.progress.anyFailed <==> out.state.phase.Failed? && !Unseen(cert, input, st))
            && EntryKey(out.state) == EntryKey(st)
  {
    if cert.secretName != "" && input.Hashed? {
      var begun := AfterHash(ctx.spec, cert.secretName, st, input.hash);
      if !IsTerminal(begun.phase) {
        var out := RunPass(RunOf(ctx, cert.name, cert.secretName, begun.runID), begun.nodes, jobs, faults);
        assert CertPass(ctx, cert, input, st, jobs, faults) == Concluded(begun, out);
      }
    }
  }

  /** A workflow that had failed before, in a pass that could not read or hash its input. */
  ghost predicate Unseen(cert: Certificate, input: Input, st: ExecState) {
    cert.secretName != "" && !input.Hashed? && st.phase.Failed?
  }

  // ---- The fold, entry by entry -------------------------------------------------------------

  /** The entry a visit finds, and what its pass makes of it. */
  ghost function Before(start: seq<ExecState>, cert: Certificate): ExecState {
    if CertKey(cert) in Keys(start) then start[Place(Keys(start), CertKey(cert))] else FreshEntry(cert)
  }

  ghost function OutOf(ctx: Context, start: Fold, visits: seq<Visit>, k: nat): CertOut
    requires k < |visits|
  {
    CertPass(ctx, visits[k].cert, visits[k].input, Before(start.views, visits[k].cert),
             AfterTurns(ctx, start, visits[..k]).jobs, visits[k].faults)
  }

  /** The keys of the list in the loop: the old ones, then the new certificates in visiting order. */
  ghost function KeysAfter(old_: seq<string>, visits: seq<Visit>): seq<string> {
    if visits == [] then old_
    else
      var before, key := KeysAfter(old_, visits[..|visits| - 1]), CertKey(visits[|visits| - 1].cert);
      if key in before then before else before + [key]
  }

  lemma PlaceUnique(keys: seq<string>, i: nat)
    requires NoDuplicates(keys) && i < |keys|
    ensures Place(keys, keys[i]) == i
  {
  }

  lemma TurnKeys(ctx: Context, s: Fold, v: Visit)
    ensures Keys(Turn(ctx, s, v).views)
            == if CertKey(v.cert) in Keys(s.views) then Keys(s.views) else Keys(s.views) + [CertKey(v.cert)]
  {
    var views := WithEntry(s.views, v.cert);
    var i := Place(Keys(views), CertKey(v.cert));
    ReportIsExact(ctx, v.cert, v.input, views[i], s.jobs, v.faults);
    assert Keys(Turn(ctx, s, v).views) == Keys(views);
    if CertKey(v.cert) !in Keys(s.views) {
      assert Keys(views) == Keys(s.views) + [CertKey(v.cert)];
    }
  }

  lemma {:induction false} FoldKeys(ctx: Context, start: Fold, visits: seq<Visit>)
    ensures Keys(AfterTurns(ctx, start, visits).views) == KeysAfter(Keys(start.views), visits)
  {
    if visits != [] {
      var front, v := visits[..|visits| - 1], visits[|visits| - 1];
      FoldKeys(ctx, start, front);
      TurnKeys(ctx, AfterTurns(ctx, start, front), v);
    }
  }

  lemma {:induction false} KeysAfterHolds(old_: seq<string>, visits: seq<Visit>)
    requires NoDuplicates(old_)
    ensures NoDuplicates(KeysAfter(old_, visits))
    ensures old_ <= KeysAfter(old_, visits)
    ensures Elements(KeysAfter(old_, visits)) == Elements(old_) + VisitKeys(visits)
  {
    if visits != [] {
      var front, key := visits[..|visits| - 1], CertKey(visits[|visits| - 1].cert);
      KeysAfterHolds(old_, front);
      var before := KeysAfter(old_, front);
      LastVisit(visits);
      assert key in before <==> key in Elements(before);
      assert Elements(before + [key]) == Elements(before) + {key};
    }
  }

  lemma LastVisit(visits: seq<Visit>)
    requires visits != []
    ensures VisitKeys(visits) == VisitKeys(visits[..|visits| - 1]) + {CertKey(visits[|visits| - 1].cert)}
  {
    var front := visits[..|visits| - 1];
    forall x | x in VisitKeys(front) ensures x in VisitKeys(visits) {
      var i :| 0 <= i < |front| && CertKey(front[i].cert) == x;
      assert CertKey(visits[i].cert) == x;
    }
    forall x | x in VisitKeys(visits) && x != CertKey(visits[|visits| - 1].cert) ensures x in VisitKeys(front) {
      var i :| 0 <= i < |visits| && CertKey(visits[i].cert) == x;
      assert CertKey(front[i].cert) == x;
    }
  }

  /** The entry stored for `key`. */
  ghost function EntryFor(views: seq<ExecState>, key: string): ExecState
    requires key in Keys(views)
  {
    views[Place(Keys(views), key)]
  }

  /** A turn touches one entry only, and that one becomes the state its pass leaves. */
  lemma TurnEntries(ctx: Context, s: Fold, v: Visit, key: string)
    requires NoDuplicates(Keys(s.views))
    ensures var t := Turn(ctx, s, v);
            var out := CertPass(ctx, v.cert, v.input, Before(s.views, v.cert), s.jobs, v.faults);
            && NoDuplicates(Keys(t.views))
            && t.jobs == out.jobs && t.progress == s.progress.Merge(out.progress)
            && (key == CertKey(v.cert) ==> key in Keys(t.views) && EntryFor(t.views, key) == out.state)
            && (key != CertKey(v.cert) && key in Keys(s.views) ==>
                  key in Keys(t.views) && EntryFor(t.views, key) == EntryFor(s.views, key))
  {
    var views, t := WithEntry(s.views, v.cert), Turn(ctx, s, v);
    var i := Place(Keys(views), CertKey(v.cert));
    TurnKeys(ctx, s, v);
    FoundEntry(s.views, v.cert);
    if key == CertKey(v.cert) {
      assert Keys(t.views)[i] == key;
      PlaceUnique(Keys(t.views), i);
    } else if key in Keys(s.views) {
      var j := Place(Keys(s.views), key);
      assert Keys(t.views)[j] == key;
      PlaceUnique(Keys(t.views), j);
    }
  }

  lemma FoundEntry(views: seq<ExecState>, cert: Certificate)
    requires NoDuplicates(Keys(views))
    ensures var r := WithEntry(views, cert);
            NoDuplicates(Keys(r)) && Keys(views) <= Keys(r) && EntryFor(r, CertKey(cert)) == Before(views, cert)
  {
    var r := WithEntry(views, cert);
    if CertKey(cert) !in Keys(views) {
      assert Keys(r) == Keys(views) + [CertKey(cert)];
      PlaceUnique(Keys(r), |views|);
    }
  }

  lemma NotVisitedBefore(visits: seq<Visit>)
    requires visits != [] && DistinctCerts(visits)
    ensures CertKey(visits[|visits| - 1].cert) !in VisitKeys(visits[..|visits| - 1])
    ensures DistinctCerts(visits[..|visits| - 1])
  {
  }

  /** An entry of a certificate that is not visited is untouched. */
  lemma {:induction false} FoldUntouched(ctx: Context, start: Fold, visits: seq<Visit>, key: string)
    requires NoDuplicates(Keys(start.views)) && key !in VisitKeys(visits)
    ensures var end := AfterTurns(ctx, start, visits);
            && NoDuplicates(Keys(end.views))
            && (key in Keys(end.views) <==> key in Keys(start.views))
            && (key in Keys(start.views) ==> EntryFor(end.views, key) == EntryFor(start.views, key))
    decreases |visits|
  {
    if visits != [] {
      var front, v := visits[..|visits| - 1], visits[|visits| - 1];
      LastVisit(visits);
      FoldUntouched(ctx, start, front, key);
      TurnEntries(ctx, AfterTurns(ctx, start, front), v, key);
      TurnKeys(ctx, AfterTurns(ctx, start, front), v);
    }
  }

  /** After all turns each visited certificate has the entry its own pass made from its own old
      entry, whatever the other passes did in between. */
  lemma {:induction false} FoldVisited(ctx: Context, start: Fold, visits: seq<Visit>, k: nat)
    requires NoDuplicates(Keys(start.views)) && DistinctCerts(visits) && k < |visits|
    ensures var end, key := AfterTurns(ctx, start, visits), CertKey(visits[k].cert);
            && NoDuplicates(Keys(end.views))
            && key in Keys(end.views) && EntryFor(end.views, key) == OutOf(ctx, start, visits, k).state
    decreases |visits|
  {
    var front, v := visits[..|visits| - 1], visits[|visits| - 1];
    var mid := AfterTurns(ctx, start, front);
    NotVisitedBefore(visits);
    if k == |front| {
      FoldUntouched(ctx, start, front, CertKey(v.cert));
      assert Before(mid.views, v.cert) == Before(start.views, v.cert);
    } else {
      FoldVisited(ctx, start, front, k);
      assert front[k] == visits[k] && front[..k] == visits[..k];
    }
    TurnEntries(ctx, mid, v, CertKey(visits[k].cert));
  }

  ghost function Reports(ctx: Context, start: Fold, visits: seq<Visit>): seq<Progress> {
    seq(|visits|, k requires 0 <= k < |visits| => OutOf(ctx, start, visits, k).progress)
  }

  ghost function Merged(ps: seq<Progress>): Progress {
    if ps == [] then NOTHING else Merged(ps[..|ps| - 1]).Merge(ps[|ps| - 1])
  }

  /** Each flag of the merged report is set exactly if some report sets it. */
  lemma {:induction false} MergedExactly(ps: seq<Progress>)
    ensures Merged(ps).needsRequeue <==> exists k :: 0 <= k < |ps| && ps[k].needsRequeue
    ensures Merged(ps).anyInProgress <==> exists k :: 0 <= k < |ps| && ps[k].anyInProgress
    ensures Merged(ps).anyFailed <==> exists k :: 0 <= k < |ps| && ps[k].anyFailed
  {
    if ps != [] {
      var front := ps[..|ps| - 1];
      MergedExactly(front);
      assert forall k | 0 <= k < |front| :: front[k] == ps[k];
      assert ps[|ps| - 1] == ps[|front|];
    }
  }

  lemma {:induction false} FoldProgress(ctx: Context, start: Fold, visits: seq<Visit>)
    requires NoDuplicates(Keys(start.views)) && DistinctCerts(visits) && start.progress == NOTHING
    ensures AfterTurns(ctx, start, visits).progress == Merged(Reports(ctx, start, visits))
    decreases |visits|
  {
    if visits != [] {
      var front := visits[..|visits| - 1];
      NotVisitedBefore(visits);
      FoldProgress(ctx, start, front);
      LastReport(ctx, start, visits);
      ReportsFront(ctx, start, visits);
    }
  }

  lemma ReportsFront(ctx: Context, start: Fold, visits: seq<Visit>)
    requires visits != []
    ensures Reports(ctx, start, visits)[..|visits| - 1] == Reports(ctx, start, visits[..|visits| - 1])
  {
    var front := visits[..|visits| - 1];
    forall k | 0 <= k < |front| ensures OutOf(ctx, start, front, k) == OutOf(ctx, start, visits, k) {
      assert front[k] == visits[k] && front[..k] == visits[..k];
    }
  }

  lemma LastReport(ctx: Context, start: Fold, visits: seq<Visit>)
    requires NoDuplicates(Keys(start.views)) && DistinctCerts(visits) && visits != []
    ensures var mid := AfterTurns(ctx, start, visits[..|visits| - 1]);
            AfterTurns(ctx, start, visits).progress
            == mid.progress.Merge(OutOf(ctx, start, visits, |visits| - 1).progress)
    ensures AfterTurns(ctx, start, visits).jobs == OutOf(ctx, start, visits, |visits| - 1).jobs
  {
    var front, v := visits[..|visits| - 1], visits[|visits| - 1];
    NotVisitedBefore(visits);
    FoldUntouched(ctx, start, front, CertKey(v.cert));
    assert Before(AfterTurns(ctx, start, front).views, v.cert) == Before(start.views, v.cert);
    TurnEntries(ctx, AfterTurns(ctx, start, front), v, CertKey(v.cert));
  }

  // ---- Filtering ----------------------------------------------------------------------------

  ghost function KeptKeys(all: seq<string>, keys: set<string>): seq<string> {
    if all == [] then []
    else KeptKeys(all[..|all| - 1], keys) + if all[|all| - 1] in keys then [all[|all| - 1]] else []
  }

  lemma {:induction false} KeptHolds(views: seq<ExecState>, keys: set<string>)
    requires NoDuplicates(Keys(views))
    ensures var r := Kept(views, keys);
            && Keys(r) == KeptKeys(Keys(views), keys)
            && NoDuplicates(Keys(r))
            && (forall i | 0 <= i < |r| :: r[i] in views && EntryKey(r[i]) in keys)
            && (forall i | 0 <= i < |views| && EntryKey(views[i]) in keys :: views[i] in r)
  {
    if views != [] {
      var front, last := views[..|views| - 1], views[|views| - 1];
      assert Keys(views)[..|views| - 1] == Keys(front);
      assert NoDuplicates(Keys(front)) by { assert forall i | 0 <= i < |front| :: Keys(front)[i] == Keys(views)[i]; }
      KeptHolds(front, keys);
      var a := Kept(front, keys);
      if EntryKey(last) in keys {
        assert Kept(views, keys) == a + [last];
        assert Keys(a + [last]) == Keys(a) + [EntryKey(last)];
        forall i | 0 <= i < |a| ensures EntryKey(a[i]) != EntryKey(last) {
          var j :| 0 <= j < |front| && front[j] == a[i];
          assert Keys(views)[j] != Keys(views)[|views| - 1];
        }
      } else {
        assert Kept(views, keys) == a;
      }
    }
  }

  lemma {:induction false} KeptKeysPrefix(a: seq<string>, b: seq<string>, keys: set<string>)
    requires a <= b
    ensures KeptKeys(a, keys) <= KeptKeys(b, keys)
    decreases |b|
  {
    if |a| < |b| {
      assert a <= b[..|b| - 1];
      KeptKeysPrefix(a, b[..|b| - 1], keys);
    } else {
      assert a == b;
    }
  }

  // ---- The whole pass -----------------------------------------------------------------------

  ghost function FinalViews(ctx: Context, start: Fold, visits: seq<Visit>): seq<ExecState> {
    Kept(AfterTurns(ctx, start, visits).views, VisitKeys(visits))
  }

  lemma KeyMembers(views: seq<ExecState>, i: nat)
    requires i < |views|
    ensures EntryKey(views[i]) in Keys(views)
  {
    assert Keys(views)[i] == EntryKey(views[i]);
  }

  /** Every entry that is left belongs to a visited certificate, and is what its pass made. */
  lemma FinalEntry(ctx: Context, start: Fold, visits: seq<Visit>, i: nat) returns (k: nat)
    requires NoDuplicates(Keys(start.views)) && DistinctCerts(visits) && i < |FinalViews(ctx, start, visits)|
    ensures k < |visits| && FinalViews(ctx, start, visits)[i] == OutOf(ctx, start, visits, k).state
  {
    var end, final := AfterTurns(ctx, start, visits), FinalViews(ctx, start, visits);
    FoldKeys(ctx, start, visits);
    KeysAfterHolds(Keys(start.views), visits);
    KeptHolds(end.views, VisitKeys(visits));
    k :| 0 <= k < |visits| && CertKey(visits[k].cert) == EntryKey(final[i]);
    FoldVisited(ctx, start, visits, k);
    var j :| 0 <= j < |end.views| && end.views[j] == final[i];
    assert Keys(end.views)[j] == EntryKey(final[i]);
    PlaceUnique(Keys(end.views), j);
  }

  lemma VisitedEntry(ctx: Context, start: Fold, visits: seq<Visit>, k: nat)
    requires NoDuplicates(Keys(start.views)) && DistinctCerts(visits) && k < |visits|
    ensures OutOf(ctx, start, visits, k).state in FinalViews(ctx, start, visits)
    ensures EntryKey(OutOf(ctx, start, visits, k).state) == CertKey(visits[k].cert)
  {
    var end, key := AfterTurns(ctx, start, visits), CertKey(visits[k].cert);
    FoldVisited(ctx, start, visits, k);
    FoldKeys(ctx, start, visits);
    KeysAfterHolds(Keys(start.views), visits);
    KeptHolds(end.views, VisitKeys(visits));
    var j := Place(Keys(end.views), key);
    assert EntryKey(end.views[j]) == key;
  }

  lemma FinalKeys(ctx: Context, start: Fold, visits: seq<Visit>)
    requires NoDuplicates(Keys(start.views)) && DistinctCerts(visits)
    ensures Elements(Keys(FinalViews(ctx, start, visits))) == VisitKeys(visits)
  {
    var final := FinalViews(ctx, start, visits);
    forall x | x in VisitKeys(visits) ensures x in Elements(Keys(final)) {
      var k :| 0 <= k < |visits| && CertKey(visits[k].cert) == x;
      VisitedEntry(ctx, start, visits, k);
      var i :| 0 <= i < |final| && final[i] == OutOf(ctx, start, visits, k).state;
      KeyMembers(final, i);
    }
    forall x | x in Elements(Keys(final)) ensures x in VisitKeys(visits) {
      var i :| 0 <= i < |final| && Keys(final)[i] == x;
      FoldKeys(ctx, start, visits);
      KeysAfterHolds(Keys(start.views), visits);
      KeptHolds(AfterTurns(ctx, start, visits).views, VisitKeys(visits));
    }
  }

  /** After the loop and the filter the status holds exactly one entry for each matching
      certificate and none else; surviving entries come first, in their old order. */
  lemma OneEntryEach(ctx: Context, start: Fold, visits: seq<Visit>)
    requires NoDuplicates(Keys(start.views)) && DistinctCerts(visits)
    ensures var keys := Keys(FinalViews(ctx, start, visits));
            && NoDuplicates(keys) && Elements(keys) == VisitKeys(visits)
            && KeptKeys(Keys(start.views), VisitKeys(visits)) <= keys
  {
    var end := AfterTurns(ctx, start, visits);
    FinalKeys(ctx, start, visits);
    FoldKeys(ctx, start, visits);
    KeysAfterHolds(Keys(start.views), visits);
    KeptHolds(end.views, VisitKeys(visits));
    KeptKeysPrefix(Keys(start.views), Keys(end.views), VisitKeys(visits));
  }

  ghost predicate SomeBusy(views: seq<ExecState>) {
    exists i :: 0 <= i < |views| && Busy(views[i])
  }

  /** Some certificate's pass ended with a failure it could see. */
  ghost predicate SomeSeenFailed(ctx: Context, start: Fold, visits: seq<Visit>) {
    exists k :: 0 <= k < |visits| && SeenFailed(ctx, start, visits, k)
  }

  ghost predicate SeenFailed(ctx: Context, start: Fold, visits: seq<Visit>, k: int)
    requires 0 <= k < |visits|
  {
    && OutOf(ctx, start, visits, k).state.phase.Failed?
    && !Unseen(visits[k].cert, visits[k].input, Before(start.views, visits[k].cert))
  }

  lemma ReportOf(ctx: Context, start: Fold, visits: seq<Visit>, k: nat)
    requires k < |visits|
    ensures var out := OutOf(ctx, start, visits, k);
            && (out.progress.needsRequeue <==> Busy(out.state)) && (out.progress.anyInProgress <==> Busy(out.state))
            && (out.progress.anyFailed <==> SeenFailed(ctx, start, visits, k))
  {
    ReportIsExact(ctx, visits[k].cert, visits[k].input, Before(start.views, visits[k].cert),
                  AfterTurns(ctx, start, visits[..k]).jobs, visits[k].faults);
  }

  /** The summary over any number of certificates is exact. */
  lemma SummaryIsExact(ctx: Context, start: Fold, visits: seq<Visit>)
    requires NoDuplicates(Keys(start.views)) && DistinctCerts(visits) && start.progress == NOTHING
    ensures var p, final := AfterTurns(ctx, start, visits).progress, FinalViews(ctx, start, visits);
            && (p.needsRequeue <==> SomeBusy(final))
            && (p.anyInProgress <==> SomeBusy(final))
            && (p.anyFailed <==> SomeSeenFailed(ctx, start, visits))
  {
    FoldProgress(ctx, start, visits);
    MergedExactly(Reports(ctx, start, visits));
    forall k | 0 <= k < |visits|
      ensures Reports(ctx, start, visits)[k] == OutOf(ctx, start, visits, k).progress
      ensures var out := OutOf(ctx, start, visits, k);
              && (out.progress.needsRequeue <==> Busy(out.state)) && (out.progress.anyInProgress <==> Busy(out.state))
              && (out.progress.anyFailed <==> SeenFailed(ctx, start, visits, k))
    {
      ReportOf(ctx, start, visits, k);
    }
    BusyEntries(ctx, start, visits);
  }

  lemma BusyEntries(ctx: Context, start: Fold, visits: seq<Visit>)
    requires NoDuplicates(Keys(start.views)) && DistinctCerts(visits)
    ensures SomeBusy(FinalViews(ctx, start, visits))
            <==> exists k :: 0 <= k < |visits| && Busy(OutOf(ctx, start, visits, k).state)
  {
    var final := FinalViews(ctx, start, visits);
    if SomeBusy(final) {
      var i :| 0 <= i < |final| && Busy(final[i]);
      var k := FinalEntry(ctx, start, visits, i);
    }
    if k :| 0 <= k < |visits| && Busy(OutOf(ctx, start, visits, k).state) {
      VisitedEntry(ctx, start, visits, k);
      var i :| 0 <= i < |final| && final[i] == OutOf(ctx, start, visits, k).state;
    }
  }
}
