// Whole runs of the pipeline: any sequence of scans over any repos, full or incremental, each possibly
// cut off at any statement, with repos added and overrides staged in between.
module ScanRuns {
  import opened Common
  import opened ScanTables
  import opened ScanPipeline
  import opened ScanIntegrity

  // Where a scan is cut off. A cut inside the transaction is undone by ROLLBACK; after COMMIT, the
  // cleanup runs as many statements as the budget allows.
  datatype Cut = InTransaction | InCleanup(budget: nat)

  datatype Event =
    | AddRepo(id: nat)
    | StageOverride(kind: OverrideKind, action: OverrideAction, target: nat, payload: Payload)
    | RunScan(scan: Scan, cut: Cut)

  function AfterCleanup(db: Tables, s: Scan, budget: nat): Progress {
    if s.mode.Incremental? then DeleteFiles(Progress(db, budget, true), s.repo, s.deleted)
    else Progress(db, budget, true)
  }

  function Step(db: Tables, e: Event): Tables {
    match e
    case AddRepo(id) => db.(repos := db.repos + {id})
    case StageOverride(kind, action, target, payload) =>
      db.(overrides := db.overrides + [Override(kind, action, target, payload, None)])
    case RunScan(s, InTransaction) => db
    case RunScan(s, InCleanup(budget)) =>
      match WriteTx(db, s)
      case Thrown => db
      case Done(db1) => AfterCleanup(db1, s, budget).db
  }

  function Run(events: seq<Event>): Tables {
    if events == [] then EMPTY else Step(Run(events[..|events| - 1]), events[|events| - 1])
  }

  // persistScanResult returns normally, leaving db'.
  ghost predicate Returns(db: Tables, s: Scan, db': Tables) {
    WriteTx(db, s).Done?
    && exists budget: nat :: AfterCleanup(WriteTx(db, s).value, s, budget).ok
                             && AfterCleanup(WriteTx(db, s).value, s, budget).db == db'
  }

  ghost predicate IsLatest(versions: map<nat, ScanVersion>, v: nat, repo: nat) {
    IsCompleted(versions, v, repo) && forall u: nat :: IsCompleted(versions, u, repo) ==> u <= v
  }

  ghost predicate Stamped(service: Service, versions: map<nat, ScanVersion>) {
    service.version.Some? && IsLatest(versions, service.version.value, service.repo)
  }

  ghost predicate AllCompleted(versions: map<nat, ScanVersion>) {
    forall v :: v in versions ==> versions[v].completedAt.Some?
  }

  // connections.scan_version_id refers to a scan.
  ghost predicate StampsExist(connections: map<nat, Connection>, versions: map<nat, ScanVersion>) {
    forall c :: c in connections && connections[c].version.Some? ==> connections[c].version.value in versions
  }

  // What holds between scans: the declared constraints, every service carries the id of its repo's
  // latest completed scan, and no scan is left uncompleted.
  ghost predicate Settled(db: Tables) {
    && WellFormed(db)
    && AllCompleted(db.versions)
    && StampsExist(db.connections, db.versions)
    && forall s :: s in db.services ==> Stamped(db.services[s], db.versions)
  }

  // What holds inside the write transaction of repo's scan n.
  ghost predicate Scanning(db: Tables, repo: nat, n: nat) {
    && WellFormed(db)
    && n in db.versions && db.versions[n].repo == repo && db.versions[n].completedAt.None?
    && db.nextVersion == n + 1
    && AllCompleted(db.versions - {n})
    && repo in db.repos
    && StampsExist(db.connections, db.versions)
    && forall s :: s in db.services && db.services[s].repo != repo ==> Stamped(db.services[s], db.versions)
  }

  // ---------------------------------------------------------------- inside the transaction

  // Between scans there is nothing abandoned to clean up.
  lemma NothingAbandoned(db: Tables, repo: nat, cutoff: int)
    requires Settled(db)
    ensures CleanupAbandoned(db, repo, cutoff) == db
  {
    assert Abandoned(db.versions, repo, cutoff) == {};
    assert db.versions - {} == db.versions;
    assert ClearStamps(db.overrides, {}) == db.overrides;
  }

  // A scan of the repo that was begun before the cutoff and never completed.
  ghost predicate IsAbandoned(db: Tables, repo: nat, cutoff: int, v: nat) {
    v in db.versions && db.versions[v].repo == repo && db.versions[v].completedAt.None?
    && db.versions[v].startedAt < cutoff
  }

  // A row carries the stamp of such a scan.
  ghost predicate AbandonedIsUsed(db: Tables, repo: nat, cutoff: int) {
    || (exists x :: x in db.services && db.services[x].version.Some?
                    && IsAbandoned(db, repo, cutoff, db.services[x].version.value))
    || (exists c :: c in db.connections && db.connections[c].version.Some?
                    && IsAbandoned(db, repo, cutoff, db.connections[c].version.value))
  }

  // Whatever the tables: the clean-up takes away the abandoned scans, and their stamps off the overrides, and nothing
  // else; if a row carries such a stamp it does nothing.
  lemma CleanupRemovesAbandoned(db: Tables, repo: nat, cutoff: int)
    ensures var after := CleanupAbandoned(db, repo, cutoff);
            if AbandonedIsUsed(db, repo, cutoff) then after == db
            else
              && after == db.(versions := after.versions, overrides := after.overrides)
              && (forall v :: v in after.versions <==> v in db.versions && !IsAbandoned(db, repo, cutoff, v))
              && (forall v :: v in after.versions ==> after.versions[v] == db.versions[v])
              && |after.overrides| == |db.overrides|
              && (forall i :: 0 <= i < |db.overrides| ==>
                    after.overrides[i]
                    == if db.overrides[i].stamp.Some? && IsAbandoned(db, repo, cutoff, db.overrides[i].stamp.value)
                       then db.overrides[i].(stamp := None) else db.overrides[i])
  {
    var gone := Abandoned(db.versions, repo, cutoff);
    forall v ensures v in gone <==> IsAbandoned(db, repo, cutoff, v) {
    }
    hide IsAbandoned, Abandoned;
  }

  function Begun(db: Tables, s: Scan): Tables {
    db.(versions := db.versions[db.nextVersion := ScanVersion(s.repo, s.startedAt, None)],
        nextVersion := db.nextVersion + 1)
  }

  lemma BeginningAScan(db: Tables, s: Scan)
    requires Settled(db)
    ensures AfterBegin(db, s).Done? <==> s.repo in db.repos
    ensures AfterBegin(db, s).Done? ==>
              AfterBegin(db, s).value == if s.mode.Incremental? then Restamp(Begun(db, s), s.repo, db.nextVersion)
                                         else Begun(db, s)
  {
    NothingAbandoned(db, s.repo, s.cutoff);
  }

  lemma StampsOutlastANewVersion(db: Tables, s: Scan, service: Service)
    requires Settled(db) && Stamped(service, db.versions)
    ensures Stamped(service, Begun(db, s).versions)
  {
    forall u: nat | IsCompleted(Begun(db, s).versions, u, service.repo) ensures u <= service.version.value {
      assert IsCompleted(db.versions, u, service.repo);
    }
  }

  lemma BegunIsScanning(db: Tables, s: Scan)
    requires Settled(db) && s.repo in db.repos
    ensures Scanning(Begun(db, s), s.repo, db.nextVersion)
  {
    var after := Begun(db, s);
    assert after.versions - {db.nextVersion} == db.versions;
    assert WellFormed(after);
    forall x | x in after.services ensures Stamped(after.services[x], after.versions) {
      StampsOutlastANewVersion(db, s, db.services[x]);
    }
  }

  lemma RestampKeepsStamps(db: Tables, repo: nat, n: nat)
    requires StampsExist(db.connections, db.versions) && n in db.versions
    ensures StampsExist(Restamp(db, repo, n).connections, db.versions)
  {
    hide LatestCompleted, RestampServices;
  }

  lemma RestampKeepsScanning(db: Tables, repo: nat, n: nat)
    requires Scanning(db, repo, n)
    ensures Scanning(Restamp(db, repo, n), repo, n)
  {
    RestampKeepsIntegrity(db, repo, n);
    RestampKeepsStamps(db, repo, n);
    hide WellFormed, Stamped, StampsExist, LatestCompleted, RestampConnections;
    var after := Restamp(db, repo, n);
    assert forall s :: s in after.services && after.services[s].repo != repo ==> after.services[s] == db.services[s];
  }

  lemma {:induction false} PersistServicesLeavesOtherRepos(db: Tables, repo: nat, fs: seq<ServiceFinding>, n: nat)
    ensures var after := PersistServices(db, repo, fs, n);
            forall s :: s in after.services && after.services[s].repo != repo ==>
                s in db.services && after.services[s] == db.services[s]
  {
    if fs != [] {
      PersistServicesLeavesOtherRepos(db, repo, fs[..|fs| - 1], n);
    }
  }

  // Every connection in `after` is one of before's, version included, or carries scan n.
  ghost predicate OldOrStamped(before: map<nat, Connection>, after: map<nat, Connection>, n: nat) {
    forall c :: c in after ==> (c in before && after[c].version == before[c].version) || after[c].version == Some(n)
  }

  lemma {:induction false} NewConnectionsAreStamped(db: Tables, repo: nat, cs: seq<ConnectionFinding>,
                                                    rejected: set<nat>, n: nat)
    requires PersistConnections(db, repo, cs, rejected, n).Done?
    ensures OldOrStamped(db.connections, PersistConnections(db, repo, cs, rejected, n).value.db.connections, n)
  {
    if cs != [] {
      NewConnectionsAreStamped(db, repo, cs[..|cs| - 1], rejected, n);
      hide Resolve, FindTemplate, MergePathTemplates, FindingKey;
    }
  }

  lemma FindingsKeepScanning(db: Tables, repo: nat, f: Findings, n: nat)
    requires Scanning(db, repo, n) && PersistFindings(db, repo, f, n).Done?
    ensures Scanning(PersistFindings(db, repo, f, n).value, repo, n)
  {
    var db1 := PersistServices(db, repo, f.services, n);
    PersistServicesKeepsIntegrity(db, repo, f.services, n);
    PersistServicesLeavesOtherRepos(db, repo, f.services, n);
    PersistConnectionsKeepsIntegrity(db1, repo, f.connections, f.rejected, n);
    var st := PersistConnections(db1, repo, f.connections, f.rejected, n).value;
    PersistSchemasOnlyAdds(st.db, st.ids, f.schemas);
    NewConnectionsAreStamped(db1, repo, f.connections, f.rejected, n);
    hide PersistServices, PersistConnections, PersistSchemas, Stamped, WellFormed;
  }

  // An override neither adds a service or a connection nor moves one to another repo or scan.
  ghost predicate KeepVersions(before: Tables, after: Tables) {
    && (forall s | s in after.services
          :: s in before.services && after.services[s].repo == before.services[s].repo
              && after.services[s].version == before.services[s].version)
    && (forall c | c in after.connections
          :: c in before.connections && after.connections[c].version == before.connections[c].version)
  }

  lemma EvictKeepsVersions(db: Tables, services: set<nat>)
    requires Evict(db, services).Done?
    ensures KeepVersions(db, Evict(db, services).value)
  {
  }

  lemma RenameKeepsVersions(db: Tables, id: nat, newName: Option<string>)
    requires RenameService(db, id, newName).Done?
    ensures KeepVersions(db, RenameService(db, id, newName).value)
  {
  }

  lemma UpdateKeepsVersions(db: Tables, id: nat, p: Payload)
    requires p.Json? && UpdateConnection(db, id, p).Done?
    ensures KeepVersions(db, UpdateConnection(db, id, p).value)
  {
    hide Replaced, KeyOf;
  }

  lemma ApplyOneKeepsVersions(db: Tables, o: Override)
    requires ApplyOne(db, o).Done?
    ensures KeepVersions(db, ApplyOne(db, o).value)
  {
    hide Evict, RenameService, UpdateConnection, Touching;
    if o.kind.OnService? && o.action.Delete? {
      EvictKeepsVersions(db, {o.target});
    } else if o.kind.OnService? && o.action.Rename? && o.payload.Json? {
      RenameKeepsVersions(db, o.target, o.payload.newName);
    } else if o.kind.OnConnection? && o.action.Update? && o.payload.Json? {
      UpdateKeepsVersions(db, o.target, o.payload);
    }
  }

  lemma KeepVersionsTwice(a: Tables, b: Tables, c: Tables)
    requires KeepVersions(a, b) && KeepVersions(b, c)
    ensures KeepVersions(a, c)
  {
  }

  lemma MutateKeepsVersions(db: Tables, o: Override, fault: Option<nat>)
    ensures KeepVersions(db, Mutate(db, o, fault).db)
  {
    hide ApplyOne, MutationSize;
    if !(o.kind.OnService? && o.action.Delete?) && ApplyOne(db, o).Done? {
      ApplyOneKeepsVersions(db, o);
    }
  }

  lemma ApplyOverrideKeepsVersions(p: Pass, i: nat, version: nat, fault: Option<nat>)
    requires i < |p.db.overrides|
    ensures KeepVersions(p.db, ApplyOverride(p, i, version, fault).db)
  {
    MutateKeepsVersions(p.db, p.db.overrides[i], fault);
    hide Mutate;
  }

  lemma {:induction false} OverridesKeepVersions(db: Tables, k: nat, version: nat, faults: map<nat, nat>)
    requires k <= |db.overrides|
    ensures KeepVersions(db, ApplyFirst(db, k, version, faults).db)
  {
    hide ApplyOverride, KeepVersions, FaultOf;
    if k > 0 {
      OverridesKeepVersions(db, k - 1, version, faults);
      var p := ApplyFirst(db, k - 1, version, faults);
      var fault := FaultOf(faults, k - 1);
      if db.overrides[k - 1].stamp.None? {
        ApplyOverrideKeepsVersions(p, k - 1, version, fault);
        assert ApplyFirst(db, k, version, faults) == ApplyOverride(p, k - 1, version, fault);
        KeepVersionsTwice(db, p.db, ApplyOverride(p, k - 1, version, fault).db);
      } else {
        assert ApplyFirst(db, k, version, faults) == p;
      }
    } else {
      KeepsItsVersions(db);
    }
  }

  lemma KeepsItsVersions(db: Tables)
    ensures KeepVersions(db, db)
  {
  }

  lemma OverridesKeepScanning(db: Tables, repo: nat, n: nat, faults: map<nat, nat>)
    requires Scanning(db, repo, n)
    ensures Scanning(ApplyPendingOverrides(db, n, faults).db, repo, n)
  {
    ApplyFirstKeepsIntegrity(db, |db.overrides|, n, faults);
    OverridesKeepVersions(db, |db.overrides|, n, faults);
    hide ApplyFirst, WellFormed;
  }

  lemma EndingAScanSettles(db: Tables, repo: nat, n: nat, now: int)
    requires Scanning(db, repo, n) && EndScan(db, repo, n, now).Done?
    ensures Settled(EndScan(db, repo, n, now).value)
  {
    hide EndScan, WellFormed;
    EndScanClosedForm(db, repo, n, now);
    var after := EndScanResult(db, repo, n, now);
    forall v | v in after.versions ensures after.versions[v].completedAt.Some? {
      assert v != n ==> v in db.versions - {n};
    }
    forall s | s in after.services ensures Stamped(after.services[s], after.versions) {
      var service := db.services[s];
      assert after.services[s] == service;
      if service.repo == repo {
        assert service.version == Some(n);
        assert IdsBelow(db.versions, n + 1) by { CountersOf(db); }
      } else {
        forall u: nat | IsCompleted(after.versions, u, service.repo) ensures u <= service.version.value {
          assert IsCompleted(db.versions, u, service.repo);
        }
      }
    }
  }

  lemma CountersOf(db: Tables)
    requires WellFormed(db)
    ensures IdsBelow(db.versions, db.nextVersion)
  {
  }

  // ---------------------------------------------------------------- theorems over runs

  lemma WriteTxSettles(db: Tables, s: Scan)
    requires Settled(db) && WriteTx(db, s).Done?
    ensures Settled(WriteTx(db, s).value)
  {
    BeginningAScan(db, s);
    BegunIsScanning(db, s);
    RestampKeepsScanning(Begun(db, s), s.repo, db.nextVersion);
    hide Restamp, BeginScan, Scanning, Settled;
    var n := db.nextVersion;
    var db1 := AfterBegin(db, s).value;
    FindingsKeepScanning(db1, s.repo, s.findings, n);
    var db2 := PersistFindings(db1, s.repo, s.findings, n).value;
    OverridesKeepScanning(db2, s.repo, n, s.faults);
    EndingAScanSettles(ApplyPendingOverrides(db2, n, s.faults).db, s.repo, n, s.now);
  }

  lemma FewerRowsStaySettled(db: Tables, after: Tables)
    requires Settled(db) && WellFormed(after)
    requires after == db.(connections := after.connections, services := after.services)
    requires RowsOnlyGo(db, after)
    ensures Settled(after)
  {
  }

  ghost predicate RowsOnlyGo(before: Tables, after: Tables) {
    && (forall s :: s in after.services ==> s in before.services && after.services[s] == before.services[s])
    && (forall c :: c in after.connections ==> c in before.connections && after.connections[c] == before.connections[c])
  }

  lemma DeleteFileRemovesOnly(p: Progress, repo: nat, file: string)
    ensures RowsOnlyGo(p.db, DeleteFile(p, repo, file).db)
  {
    var ids := ServicesIn(p.db.services, p.db.nextService, repo, file);
    DeleteConnectionsOfRemovesOnly(p, ids);
    hide DeleteConnectionsOf;
  }

  lemma {:induction false} DeleteConnectionsOfRemovesOnly(p: Progress, ids: seq<nat>)
    ensures RowsOnlyGo(p.db, DeleteConnectionsOf(p, ids).db)
  {
    if ids != [] {
      DeleteConnectionsOfRemovesOnly(p, ids[..|ids| - 1]);
    }
  }

  lemma {:induction false} DeleteFilesRemovesOnly(p: Progress, repo: nat, files: seq<string>)
    ensures RowsOnlyGo(p.db, DeleteFiles(p, repo, files).db)
  {
    if files != [] {
      DeleteFilesRemovesOnly(p, repo, files[..|files| - 1]);
      DeleteFileRemovesOnly(DeleteFiles(p, repo, files[..|files| - 1]), repo, files[|files| - 1]);
      hide DeleteFile;
    }
  }

  lemma CleanupStaysSettled(db: Tables, s: Scan, budget: nat)
    requires Settled(db)
    ensures Settled(AfterCleanup(db, s, budget).db)
  {
    if s.mode.Incremental? {
      var p := Progress(db, budget, true);
      DeleteFilesKeepsIntegrity(p, s.repo, s.deleted);
      DeleteFilesRemovesOnly(p, s.repo, s.deleted);
      hide DeleteFiles;
      FewerRowsStaySettled(db, AfterCleanup(db, s, budget).db);
    }
  }

  lemma StepKeepsSettled(db: Tables, e: Event)
    requires Settled(db)
    ensures Settled(Step(db, e))
  {
    match e
    case AddRepo(id) =>
    case StageOverride(kind, action, target, payload) =>
    case RunScan(s, cut) =>
      if cut.InCleanup? && WriteTx(db, s).Done? {
        WriteTxSettles(db, s);
        CleanupStaysSettled(WriteTx(db, s).value, s, cut.budget);
        hide WriteTx, AfterCleanup, Settled;
      }
  }

  // Whatever ran and wherever it was cut off: connections and schemas never dangle, names and
  // concrete connection keys are unique, every service carries its repo's latest completed scan, and
  // no scan_versions row is left uncompleted.
  lemma {:induction false} RunsStaySettled(events: seq<Event>)
    ensures Settled(Run(events))
  {
    if events != [] {
      RunsStaySettled(events[..|events| - 1]);
      StepKeepsSettled(Run(events[..|events| - 1]), events[|events| - 1]);
    }
  }
}
