// The override pass: exact bookkeeping of one pass, and exactly-once application over whole runs.
module ScanOverrides {
  import opened Common
  import opened ScanTables
  import opened ScanPipeline
  import opened ScanIntegrity
  import opened ScanRuns

  function PendingBelow(overrides: seq<Override>, k: nat): nat
    requires k <= |overrides|
  {
    if k == 0 then 0 else PendingBelow(overrides, k - 1) + (if overrides[k - 1].stamp.None? then 1 else 0)
  }

  ghost predicate Ascending(ids: seq<nat>) {
    forall i, j :: 0 <= i < j < |ids| ==> ids[i] < ids[j]
  }

  // A stamped override is left alone; a pending one is stamped with this scan, or stays pending as it was.
  ghost predicate Booked(before: seq<Override>, p: Pass, k: nat, version: nat) {
    && |p.db.overrides| == |before|
    && Ascending(p.applied)
    && (forall i: nat :: i in p.applied ==> i < k)
    && (forall i: nat :: i < |before| && before[i].stamp.Some? ==> p.db.overrides[i] == before[i] && i !in p.applied)
    && (forall i: nat :: i < |before| && before[i].stamp.None? ==>
          p.db.overrides[i] == if i in p.applied then before[i].(stamp := Some(version)) else before[i])
  }

  lemma BookOne(before: seq<Override>, p: Pass, k: nat, version: nat, fault: Option<nat>)
    requires k < |before| && before[k].stamp.None? && Booked(before, p, k, version)
    ensures Booked(before, ApplyOverride(p, k, version, fault), k + 1, version)
    ensures var q := ApplyOverride(p, k, version, fault);
            |q.applied| + q.skipped + q.errors == |p.applied| + p.skipped + p.errors + 1
  {
    MutateKeepsOverrides(p.db, p.db.overrides[k], fault);
    hide Mutate, MutationSize;
    var q := ApplyOverride(p, k, version, fault);
    assert k !in p.applied && p.db.overrides[k] == before[k];
    forall i: nat ensures i in p.applied + [k] <==> i in p.applied || i == k {
    }
    assert q.applied == p.applied || q.applied == p.applied + [k];
    forall i, j | 0 <= i < j < |p.applied + [k]| ensures (p.applied + [k])[i] < (p.applied + [k])[j] {
      assert p.applied[i] in p.applied;
    }
    forall i: nat | i < |before| && before[i].stamp.None?
      ensures q.db.overrides[i] == if i in q.applied then before[i].(stamp := Some(version)) else before[i]
    {
    }
  }

  // Each pending override is counted once, as applied, skipped or failed, and is stamped iff applied.
  lemma {:induction false} PassIsBooked(db: Tables, k: nat, version: nat, faults: map<nat, nat>)
    requires k <= |db.overrides|
    ensures Booked(db.overrides, ApplyFirst(db, k, version, faults), k, version)
    ensures var p := ApplyFirst(db, k, version, faults);
            |p.applied| + p.skipped + p.errors == PendingBelow(db.overrides, k)
  {
    hide ApplyOverride, Booked, ApplyFirst, FaultOf;
    if k > 0 {
      PassIsBooked(db, k - 1, version, faults);
      ApplyNext(db, k, version, faults);
      var p := ApplyFirst(db, k - 1, version, faults);
      if db.overrides[k - 1].stamp.None? {
        BookOne(db.overrides, p, k - 1, version, FaultOf(faults, k - 1));
      } else {
        BookNone(db.overrides, p, k - 1, version);
      }
    } else {
      NothingApplied(db, version, faults);
      BookNothing(db, version);
    }
  }

  lemma BookNothing(db: Tables, version: nat)
    ensures Booked(db.overrides, Pass(db, [], [], 0, 0), 0, version)
  {
  }

  lemma BookNone(before: seq<Override>, p: Pass, k: nat, version: nat)
    requires k < |before| && before[k].stamp.Some? && Booked(before, p, k, version)
    ensures Booked(before, p, k + 1, version)
  {
  }

  // ---------------------------------------------------------------- faults

  // Does the pass meet override i with all of its statements running?
  ghost predicate Completes(db: Tables, i: nat, version: nat, faults: map<nat, nat>)
    requires i < |db.overrides|
  {
    var p := ApplyFirst(db, i, version, faults);
    var o := p.db.overrides[i];
    db.overrides[i].stamp.None? && Allowed(o) && !o.payload.NotJson? && Mutate(p.db, o, FaultOf(faults, i)).completed
  }

  // Does the statement that fails for override i come after the ones that change tables?
  predicate StampFails(o: Override, i: nat, faults: map<nat, nat>) {
    FaultOf(faults, i) == Some(MutationSize(o))
  }

  // The pass meets a pending override as it was staged.
  lemma MetAsStaged(db: Tables, i: nat, version: nat, faults: map<nat, nat>)
    requires i < |db.overrides|
    ensures ApplyFirst(db, i, version, faults).db.overrides[i] == db.overrides[i]
  {
    hide ApplyFirst;
    PassIsBooked(db, i, version, faults);
  }

  lemma OutcomeOfOne(db: Tables, i: nat, version: nat, faults: map<nat, nat>)
    requires i < |db.overrides|
    ensures var (p, r) := (ApplyFirst(db, i, version, faults), ApplyFirst(db, i + 1, version, faults));
            var (runs, fails) := (Completes(db, i, version, faults), StampFails(db.overrides[i], i, faults));
            && r.applied == (if runs && !fails then p.applied + [i] else p.applied)
            && r.unstamped == (if runs && fails then p.unstamped + [i] else p.unstamped)
  {
    ApplyNext(db, i + 1, version, faults);
    MetAsStaged(db, i, version, faults);
    hide Mutate, MutationSize, Allowed, ApplyFirst, FaultOf;
  }

  // An override whose statements all ran is stamped, unless just the stamp fails: then the change is made and the
  // override stays pending.
  lemma {:induction false} StampedUnlessTheStampFails(db: Tables, k: nat, version: nat, faults: map<nat, nat>, i: nat)
    requires k <= |db.overrides|
    ensures var p := ApplyFirst(db, k, version, faults);
            && (i in p.applied
                <==> i < k && Completes(db, i, version, faults) && !StampFails(db.overrides[i], i, faults))
            && (i in p.unstamped
                <==> i < k && Completes(db, i, version, faults) && StampFails(db.overrides[i], i, faults))
  {
    hide Completes, StampFails, ApplyFirst;
    if k > 0 {
      StampedUnlessTheStampFails(db, k - 1, version, faults, i);
      OutcomeOfOne(db, k - 1, version, faults);
    } else {
      NothingApplied(db, version, faults);
    }
  }

  // ---------------------------------------------------------------- runs

  // The pass of a scan that commits.
  ghost predicate Commits(db: Tables, e: Event) {
    e.RunScan? && e.cut.InCleanup? && WriteTx(db, e.scan).Done?
  }

  function PassOf(db: Tables, s: Scan): Pass
    requires WriteTx(db, s).Done?
  {
    ApplyPendingOverrides(AfterFindings(db, s).value, NewVersion(db, s), s.faults)
  }

  // The overrides a step applied and committed.
  ghost function AppliedBy(db: Tables, e: Event): seq<nat> {
    if Commits(db, e) then PassOf(db, e.scan).applied else []
  }

  // The overrides whose changes a step committed without stamping them.
  ghost function UnstampedBy(db: Tables, e: Event): seq<nat> {
    if Commits(db, e) then PassOf(db, e.scan).unstamped else []
  }

  ghost function AppliedLog(events: seq<Event>): seq<nat> {
    if events == [] then []
    else AppliedLog(events[..|events| - 1]) + AppliedBy(Run(events[..|events| - 1]), events[|events| - 1])
  }

  ghost function UnstampedLog(events: seq<Event>): seq<nat> {
    if events == [] then []
    else UnstampedLog(events[..|events| - 1]) + UnstampedBy(Run(events[..|events| - 1]), events[|events| - 1])
  }

  // Every committed run of all of an override's statements, stamped or not.
  ghost function ChangeLog(events: seq<Event>): seq<nat> {
    if events == [] then []
    else
      var before, e := Run(events[..|events| - 1]), events[|events| - 1];
      ChangeLog(events[..|events| - 1]) + AppliedBy(before, e) + UnstampedBy(before, e)
  }

  lemma FindingsKeepOverrides(db: Tables, s: Scan)
    requires Settled(db) && WriteTx(db, s).Done?
    ensures AfterFindings(db, s).value.overrides == db.overrides
    ensures WellFormed(AfterFindings(db, s).value) && NewVersion(db, s) in AfterFindings(db, s).value.versions
  {
    BeginningAScan(db, s);
    BegunIsScanning(db, s);
    RestampKeepsScanning(Begun(db, s), s.repo, db.nextVersion);
    var d1 := AfterBegin(db, s).value;
    assert d1.overrides == db.overrides;
    hide BeginScan, Restamp, Settled;
    FindingsKeepScanning(d1, s.repo, s.findings, db.nextVersion);
    PersistServicesKeepsIntegrity(d1, s.repo, s.findings.services, db.nextVersion);
    var d2 := PersistServices(d1, s.repo, s.findings.services, db.nextVersion);
    PersistConnectionsKeepsIntegrity(d2, s.repo, s.findings.connections, s.findings.rejected, db.nextVersion);
    var st := PersistConnections(d2, s.repo, s.findings.connections, s.findings.rejected, db.nextVersion).value;
    PersistSchemasOnlyAdds(st.db, st.ids, s.findings.schemas);
    hide PersistServices, PersistConnections, PersistSchemas, WellFormed;
  }

  lemma WriteTxOverrides(db: Tables, s: Scan)
    requires Settled(db) && WriteTx(db, s).Done?
    ensures WriteTx(db, s).value.overrides
            == ApplyPendingOverrides(AfterFindings(db, s).value, NewVersion(db, s), s.faults).db.overrides
  {
    FindingsKeepOverrides(db, s);
    var d4, n := AfterFindings(db, s).value, db.nextVersion;
    ApplyFirstKeepsIntegrity(d4, |d4.overrides|, n, s.faults);
    var d5 := ApplyPendingOverrides(d4, n, s.faults).db;
    hide ApplyFirst, AfterFindings;
    EndScanClosedForm(d5, s.repo, n, s.now);
    hide EndScan;
  }

  lemma CleanupKeepsOverrides(db: Tables, s: Scan, budget: nat)
    requires WellFormed(db)
    ensures AfterCleanup(db, s, budget).db.overrides == db.overrides
  {
    if s.mode.Incremental? {
      DeleteFilesKeepsIntegrity(Progress(db, budget, true), s.repo, s.deleted);
    }
  }

  // The stamps after a step: old ones as they were, plus the overrides the step applied, which were pending.
  ghost predicate StampsGrow(db: Tables, after: Tables, applied: seq<nat>) {
    && |db.overrides| <= |after.overrides|
    && Ascending(applied)
    && (forall i: nat :: i in applied ==> i < |db.overrides| && db.overrides[i].stamp.None?)
    && (forall i: nat :: i < |db.overrides| && db.overrides[i].stamp.Some? ==> after.overrides[i] == db.overrides[i])
    && (forall i: nat :: i < |after.overrides| ==>
          (after.overrides[i].stamp.Some? <==> (i < |db.overrides| && db.overrides[i].stamp.Some?) || i in applied))
    && (forall i: nat :: i < |db.overrides| ==>
          after.overrides[i] == db.overrides[i].(stamp := after.overrides[i].stamp))
  }

  lemma BookedStampsGrow(db: Tables, after: Tables, p: Pass, version: nat)
    requires Booked(db.overrides, p, |db.overrides|, version) && after.overrides == p.db.overrides
    ensures StampsGrow(db, after, p.applied)
  {
  }

  lemma StepStamps(db: Tables, e: Event)
    requires Settled(db)
    ensures StampsGrow(db, Step(db, e), AppliedBy(db, e))
  {
    hide AfterFindings, AfterCleanup, WellFormed, ApplyFirst, Booked;
    if e.RunScan? && e.cut.InCleanup? && WriteTx(db, e.scan).Done? {
      var s := e.scan;
      FindingsKeepOverrides(db, s);
      WriteTxOverrides(db, s);
      WriteTxSettles(db, s);
      CleanupKeepsOverrides(WriteTx(db, s).value, s, e.cut.budget);
      var d4 := AfterFindings(db, s).value;
      PassIsBooked(d4, |d4.overrides|, NewVersion(db, s), s.faults);
      hide WriteTx, Settled, StampsGrow;
      BookedStampsGrow(db, Step(db, e), PassOf(db, s), NewVersion(db, s));
    }
  }

  lemma DistinctConcat(log: seq<nat>, added: seq<nat>)
    requires Distinct(log) && Ascending(added) && forall i: nat :: i in added ==> i !in log
    ensures Distinct(log + added)
  {
    forall i, j | 0 <= i < j < |log + added| ensures (log + added)[i] != (log + added)[j] {
      if i < |log| <= j {
        assert log[i] in log && added[j - |log|] in added;
      }
    }
  }

  // Exactly the overrides in the log are stamped.
  ghost predicate StampedAre(overrides: seq<Override>, log: seq<nat>) {
    && (forall i: nat :: i in log ==> i < |overrides|)
    && (forall i: nat :: i < |overrides| ==> (overrides[i].stamp.Some? <==> i in log))
  }

  // Over every run, with whatever rollbacks: no override is applied and committed twice, and the
  // stamped overrides are exactly the applied ones; the others are still pending.
  lemma {:induction false} OverridesApplyExactlyOnce(events: seq<Event>)
    ensures Distinct(AppliedLog(events))
    ensures StampedAre(Run(events).overrides, AppliedLog(events))
  {
    if events != [] {
      var earlier, last := events[..|events| - 1], events[|events| - 1];
      OverridesApplyExactlyOnce(earlier);
      RunsStaySettled(earlier);
      StepStamps(Run(earlier), last);
      hide Step, AppliedBy, Settled;
      var log, added := AppliedLog(earlier), AppliedBy(Run(earlier), last);
      DistinctConcat(log, added);
      assert AppliedLog(events) == log + added;
      forall i: nat ensures i in log + added <==> i in log || i in added {
      }
    }
  }

  lemma {:induction false} ChangesAreAppliedOrUnstamped(events: seq<Event>)
    ensures multiset(ChangeLog(events)) == multiset(AppliedLog(events)) + multiset(UnstampedLog(events))
  {
    if events != [] {
      ChangesAreAppliedOrUnstamped(events[..|events| - 1]);
      hide Run, AppliedBy, UnstampedBy;
    }
  }

  lemma {:induction false} CountInDistinct(ids: seq<nat>, i: nat)
    requires Distinct(ids)
    ensures multiset(ids)[i] == if i in ids then 1 else 0
  {
    if ids != [] {
      var front, last := ids[..|ids| - 1], ids[|ids| - 1];
      assert ids == front + [last];
      CountInDistinct(front, i);
    }
  }

  // However scans roll back and whichever statements fail: the change an override makes is committed once for its
  // stamp, if it has one, and once more for every time just its stamp failed. So it happens at most once exactly if
  // the stamp and its failures come to one at most.
  lemma ChangesPerOverride(events: seq<Event>, i: nat)
    ensures var overrides := Run(events).overrides;
            multiset(ChangeLog(events))[i]
            == (if i < |overrides| && overrides[i].stamp.Some? then 1 else 0) + multiset(UnstampedLog(events))[i]
  {
    OverridesApplyExactlyOnce(events);
    ChangesAreAppliedOrUnstamped(events);
    CountInDistinct(AppliedLog(events), i);
    hide Run, AppliedLog, UnstampedLog, ChangeLog;
  }

  lemma {:induction false} NeverUnstamped(events: seq<Event>, i: nat, size: nat)
    requires forall k :: 0 <= k < |events| && events[k].RunScan? ==> FaultOf(events[k].scan.faults, i) != Some(size)
    requires i < |Run(events).overrides| ==> MutationSize(Run(events).overrides[i]) == size
    ensures i !in UnstampedLog(events)
  {
    if events != [] {
      var earlier, last := events[..|events| - 1], events[|events| - 1];
      RunsStaySettled(earlier);
      StepStamps(Run(earlier), last);
      assert Run(events) == Step(Run(earlier), last);
      assert forall k :: 0 <= k < |earlier| ==> earlier[k] == events[k];
      hide Run, Step, Settled, AppliedBy;
      if i < |Run(earlier).overrides| {
        StampDoesNotCount(Run(earlier).overrides[i], Step(Run(earlier), last).overrides[i].stamp);
      }
      hide MutationSize, FaultOf;
      NeverUnstamped(earlier, i, size);
      if i in UnstampedBy(Run(earlier), last) {
        UnstampedMeansFault(Run(earlier), last, i);
      }
    }
  }

  lemma StampDoesNotCount(o: Override, stamp: Option<nat>)
    ensures MutationSize(o.(stamp := stamp)) == MutationSize(o)
  {
  }

  // In a run whose scans never fail at the stamp of override i, its change is committed at most once.
  lemma AtMostOneChange(events: seq<Event>, i: nat)
    requires i < |Run(events).overrides| ==>
               forall k :: 0 <= k < |events| && events[k].RunScan? ==>
                 !StampFails(Run(events).overrides[i], i, events[k].scan.faults)
    ensures multiset(ChangeLog(events))[i] <= 1
  {
    ChangesPerOverride(events, i);
    if i < |Run(events).overrides| {
      NeverUnstamped(events, i, MutationSize(Run(events).overrides[i]));
    } else {
      UnstampedAreStaged(events, i);
    }
    hide Run, ChangeLog, UnstampedLog;
  }

  lemma {:induction false} UnstampedAreStaged(events: seq<Event>, i: nat)
    requires i >= |Run(events).overrides|
    ensures i !in UnstampedLog(events)
  {
    if events != [] {
      var earlier, last := events[..|events| - 1], events[|events| - 1];
      RunsStaySettled(earlier);
      StepStamps(Run(earlier), last);
      assert Run(events) == Step(Run(earlier), last);
      hide Run, Step, Settled, AppliedBy;
      UnstampedAreStaged(earlier, i);
      if i in UnstampedBy(Run(earlier), last) {
        UnstampedMeansFault(Run(earlier), last, i);
      }
    }
  }

  lemma UnstampedMeansFault(db: Tables, e: Event, i: nat)
    requires Settled(db) && i in UnstampedBy(db, e)
    ensures e.RunScan? && i < |db.overrides| && StampFails(db.overrides[i], i, e.scan.faults)
  {
    var s := e.scan;
    FindingsKeepOverrides(db, s);
    var d4 := AfterFindings(db, s).value;
    hide WriteTx, AfterFindings, Settled, StampFails, Completes;
    StampedUnlessTheStampFails(d4, |d4.overrides|, NewVersion(db, s), s.faults, i);
  }

  // An override left unstamped is pending as before, so the next scan of any repo meets it again.
  lemma UnstampedStaysPending(db: Tables, e: Event, i: nat)
    requires Settled(db) && i in UnstampedBy(db, e)
    ensures i < |db.overrides| && i < |Step(db, e).overrides|
    ensures db.overrides[i].stamp.None? && Step(db, e).overrides[i].stamp.None?
  {
    StepStamps(db, e);
    var s := e.scan;
    FindingsKeepOverrides(db, s);
    var d4 := AfterFindings(db, s).value;
    hide WriteTx, AfterFindings, Step, Settled;
    UnstampedAreMet(d4, |d4.overrides|, NewVersion(db, s), s.faults, i);
  }

  lemma UnstampedAreMet(db: Tables, k: nat, version: nat, faults: map<nat, nat>, i: nat)
    requires k <= |db.overrides| && i in ApplyFirst(db, k, version, faults).unstamped
    ensures i < k && db.overrides[i].stamp.None? && i !in ApplyFirst(db, k, version, faults).applied
  {
    StampedUnlessTheStampFails(db, k, version, faults, i);
    hide ApplyFirst, StampFails;
  }

  // A committed stamp names a completed scan and never changes.
  lemma StampsAreFinal(db: Tables, e: Event, i: nat)
    requires Settled(db) && i < |db.overrides| && db.overrides[i].stamp.Some?
    ensures db.overrides[i].stamp.value in db.versions
            && db.versions[db.overrides[i].stamp.value].completedAt.Some?
    ensures i < |Step(db, e).overrides| && Step(db, e).overrides[i] == db.overrides[i]
  {
    StepStamps(db, e);
    hide Step, AppliedBy;
  }

  // ---------------------------------------------------------------- a run that changes a service twice

  // A base-path override runs its one statement whatever came before it.
  lemma BasePathCompletes(db: Tables, i: nat, version: nat, faults: map<nat, nat>)
    requires i < |db.overrides| && db.overrides[i].stamp.None? && FaultOf(faults, i) != Some(0)
    requires db.overrides[i].kind.OnService? && db.overrides[i].action.SetBasePath? && db.overrides[i].payload.Json?
    ensures Completes(db, i, version, faults) && MutationSize(db.overrides[i]) == 1
  {
    MetAsStaged(db, i, version, faults);
    hide ApplyFirst, FaultOf;
  }

  lemma OneOverride(db: Tables, version: nat, faults: map<nat, nat>)
    requires |db.overrides| == 1
    ensures var p, o := ApplyPendingOverrides(db, version, faults), db.overrides[0];
            var runs := Completes(db, 0, version, faults);
            && p.applied == (if runs && !StampFails(o, 0, faults) then [0] else [])
            && p.unstamped == (if runs && StampFails(o, 0, faults) then [0] else [])
  {
    OutcomeOfOne(db, 0, version, faults);
    NothingApplied(db, version, faults);
    hide ApplyFirst, Completes, StampFails;
  }

  predicate ServicesOnly(f: Findings) {
    f.connections == [] && f.schemas == []
  }

  lemma ServicesOnlyFindings(db: Tables, s: Scan) returns (d4: Tables)
    requires Settled(db) && s.repo in db.repos && db.schemas == map[] && ServicesOnly(s.findings)
    ensures AfterFindings(db, s) == Done(d4) && WellFormed(d4) && NewVersion(db, s) in d4.versions
    ensures d4.schemas == map[] && d4.repos == db.repos
  {
    BeginningAScan(db, s);
    BegunIsScanning(db, s);
    RestampKeepsScanning(Begun(db, s), s.repo, db.nextVersion);
    var d1, n := AfterBegin(db, s).value, db.nextVersion;
    assert d1.schemas == db.schemas && d1.repos == db.repos;
    hide BeginScan, Restamp, Settled;
    FindingsKeepScanning(d1, s.repo, s.findings, n);
    PersistServicesKeepsIntegrity(d1, s.repo, s.findings.services, n);
    d4 := PersistServices(d1, s.repo, s.findings.services, n);
  }

  // Without connections and schemas there is nothing that could make a scan throw.
  lemma ServicesOnlyCommit(db: Tables, s: Scan)
    requires Settled(db) && s.repo in db.repos && db.schemas == map[] && ServicesOnly(s.findings)
    ensures WriteTx(db, s).Done? && WriteTx(db, s).value.schemas == map[] && WriteTx(db, s).value.repos == db.repos
  {
    hide Settled, AfterFindings, WellFormed, ApplyFirst, EndScan, Blocks, Current, Among, KeptSchemas, FieldsOf;
    var d4 := ServicesOnlyFindings(db, s);
    ApplyFirstKeepsIntegrity(d4, |d4.overrides|, db.nextVersion, s.faults);
    var d5 := ApplyPendingOverrides(d4, db.nextVersion, s.faults).db;
    hide ApplyPendingOverrides;
    EndScanThrowsIffBlocked(d5, s.repo, db.nextVersion, s.now);
    EndScanClosedForm(d5, s.repo, db.nextVersion, s.now);
    KeptSchemasSurvive(d5, s.repo, db.nextVersion);
    assert KeptSchemas(d5, s.repo, db.nextVersion) == map[];
  }

  // One base-path override, pending, and no schemas.
  ghost predicate OnePending(db: Tables, repo: nat) {
    && Settled(db) && repo in db.repos && db.schemas == map[] && |db.overrides| == 1
    && var o := db.overrides[0];
       o.stamp.None? && o.kind.OnService? && o.action.SetBasePath? && o.payload.Json?
  }

  lemma OnePendingStep(db: Tables, s: Scan)
    requires OnePending(db, s.repo) && s.mode.Full? && ServicesOnly(s.findings) && FaultOf(s.faults, 0) != Some(0)
    ensures var e, fails := RunScan(s, InCleanup(0)), FaultOf(s.faults, 0) == Some(1);
            && AppliedBy(db, e) == (if fails then [] else [0])
            && UnstampedBy(db, e) == (if fails then [0] else [])
            && (fails ==> OnePending(Step(db, e), s.repo))
  {
    hide Settled, WellFormed, ServicesOnly, Completes, ApplyFirst, PersistFindings, EndScan;
    ServicesOnlyCommit(db, s);
    FindingsKeepOverrides(db, s);
    var d4, n, e := AfterFindings(db, s).value, NewVersion(db, s), RunScan(s, InCleanup(0));
    BasePathCompletes(d4, 0, n, s.faults);
    OneOverride(d4, n, s.faults);
    StepStamps(db, e);
    StepKeepsSettled(db, e);
    assert Step(db, e) == WriteTx(db, s).value;
    WriteTxOverrides(db, s);
    hide WriteTx, AfterFindings, MutationSize, Step;
    assert |ApplyPendingOverrides(d4, n, s.faults).db.overrides| == 1 by {
      PassIsBooked(d4, 1, n, s.faults);
    }
  }

  lemma LogsOfLonger(events: seq<Event>, e: Event)
    ensures UnstampedLog(events + [e]) == UnstampedLog(events) + UnstampedBy(Run(events), e)
    ensures ChangeLog(events + [e]) == ChangeLog(events) + AppliedBy(Run(events), e) + UnstampedBy(Run(events), e)
    ensures Run(events + [e]) == Step(Run(events), e)
  {
    assert (events + [e])[..|events + [e]| - 1] == events;
    hide Step, AppliedBy, UnstampedBy;
  }

  lemma StagedOverride(o: Override)
    requires o.kind.OnService? && o.action.SetBasePath? && o.payload.Json?
    ensures var run := [AddRepo(1), StageOverride(o.kind, o.action, o.target, o.payload)];
            OnePending(Run(run), 1) && ChangeLog(run) == []
  {
    var a, b := AddRepo(1), StageOverride(o.kind, o.action, o.target, o.payload);
    LogsOfLonger([], a);
    LogsOfLonger([a], b);
    assert [] + [a] == [a] && [a] + [b] == [a, b];
    RunsStaySettled([a, b]);
    hide Settled, ChangeLog, WriteTx;
    assert ChangeLog([]) == [] by { NothingLogged(); }
    assert Run([]) == EMPTY;
    hide Run;
  }

  lemma NothingLogged()
    ensures ChangeLog([]) == []
  {
  }

  // An override is staged, the first scan fails at its stamp, the second does not: the change is committed twice.
  lemma StampFailureRun(o: Override, first: Scan, second: Scan)
    requires o.kind.OnService? && o.action.SetBasePath? && o.payload.Json?
    requires first.repo == second.repo == 1 && first.mode.Full? && second.mode.Full?
    requires ServicesOnly(first.findings) && ServicesOnly(second.findings)
    requires first.faults == map[0 := 1] && second.faults == map[]
    ensures ChangeLog([AddRepo(1), StageOverride(o.kind, o.action, o.target, o.payload),
                       RunScan(first, InCleanup(0)), RunScan(second, InCleanup(0))]) == [0, 0]
  {
    hide Run, ChangeLog, UnstampedLog, Step, OnePending, ServicesOnly, AppliedBy, UnstampedBy;
    var a, b := AddRepo(1), StageOverride(o.kind, o.action, o.target, o.payload);
    var c, d := RunScan(first, InCleanup(0)), RunScan(second, InCleanup(0));
    StagedOverride(o);
    LogsOfLonger([a, b], c);
    LogsOfLonger([a, b, c], d);
    assert [a, b] + [c] == [a, b, c] && [a, b, c] + [d] == [a, b, c, d];
    OnePendingStep(Run([a, b]), first);
    OnePendingStep(Run([a, b, c]), second);
  }
}
