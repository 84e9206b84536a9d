// The scan write pipeline statement by statement, over a database that may fail at any of them:
// QueryEngine's write methods (worker/db/query-engine.js), applyPendingOverridesSync
// (worker/scan/overrides.js) and persistScanResult (worker/scan/scan-service.js).
module ScanEngine {
  import opened Common
  import opened ScanTables
  import opened ScanPipeline
  import opened ScanRuns
  import opened ScanEffects
  import opened ScanCleanup
  import opened ScanReturns

  class QueryEngine {
    var db: Tables
    // How many more write statements the engine runs before one fails, whatever the reason.
    var budget: nat

    // What holds between calls.
    ghost predicate Valid()
      reads this
    {
      Settled(db)
    }

    constructor (budget: nat)
      ensures Valid() && db == EMPTY && this.budget == budget
    {
      db := EMPTY;
      this.budget := budget;
    }

    method AddRepo(id: nat)
      requires Valid()
      modifies this
      ensures Valid() && db == Step(old(db), Event.AddRepo(id)) && budget == old(budget)
      ensures db == old(db).(repos := old(db).repos + {id})
    {
      StepKeepsSettled(db, Event.AddRepo(id));
      db := db.(repos := db.repos + {id});
    }

    // upsertOverride
    method StageOverride(kind: OverrideKind, action: OverrideAction, target: nat, payload: Payload)
      requires Valid()
      modifies this
      ensures Valid() && db == Step(old(db), Event.StageOverride(kind, action, target, payload))
              && budget == old(budget)
      ensures db == old(db).(overrides := old(db).overrides + [Override(kind, action, target, payload, None)])
    {
      StepKeepsSettled(db, Event.StageOverride(kind, action, target, payload));
      db := db.(overrides := db.overrides + [Override(kind, action, target, payload, None)]);
    }

    method Tick() returns (live: bool)
      modifies this`budget
      ensures live == (old(budget) > 0)
      ensures budget == if live then old(budget) - 1 else 0
    {
      live := budget > 0;
      if live {
        budget := budget - 1;
      }
    }

    // Runs one statement: false when the engine failed or the statement was rejected.
    method Exec(after: Outcome<Tables>) returns (ok: bool)
      modifies this
      ensures ok == (old(budget) > 0 && after.Done?)
      ensures db == if ok then after.value else old(db)
      ensures Progress(db, budget, ok) == RunStatement(Progress(old(db), old(budget), true), after)
    {
      ok := Tick();
      if ok {
        match after
        case Done(tables) => db := tables;
        case Thrown => ok := false;
      }
    }

    // ---------------------------------------------------------------- beginScan

    method BeginScan(repo: nat, startedAt: int, cutoff: int) returns (id: nat, ok: bool)
      modifies this
      ensures ok ==> ScanTables.BeginScan(old(db), repo, startedAt, cutoff) == Done(db) && id == old(db).nextVersion
      ensures !ok ==> budget == 0 || ScanTables.BeginScan(old(db), repo, startedAt, cutoff).Thrown?
    {
      id := db.nextVersion;
      ok := Exec(Done(CleanupAbandoned(db, repo, cutoff)));
      if ok {
        ok := Exec(if repo !in db.repos then Thrown
                   else Done(db.(versions := db.versions[id := ScanVersion(repo, startedAt, None)],
                                 nextVersion := db.nextVersion + 1)));
      }
    }

    method RestampExistingRows(repo: nat, version: nat) returns (ok: bool)
      modifies this
      ensures ok ==> db == Restamp(old(db), repo, version)
      ensures !ok ==> budget == 0
    {
      var previous := LatestCompleted(db.versions, db.nextVersion, repo);
      ok := true;
      if previous.Some? {
        ok := Exec(Done(db.(services := RestampServices(db.services, repo, previous.value, version))));
        if ok {
          ok := Exec(Done(db.(connections :=
                                RestampConnections(db.connections, db.services, repo, previous.value, version))));
        }
      }
    }

    // ---------------------------------------------------------------- persistFindings

    method UpsertService(row: Service) returns (id: nat, ok: bool)
      modifies this
      ensures ok ==> db == ScanTables.UpsertService(old(db), row)
                     && FindService(db.services, db.nextService, row.repo, row.name) == Some(id)
      ensures !ok ==> budget == 0
    {
      id := 0;
      ghost var before := db;
      ok := Exec(Done(ScanTables.UpsertService(db, row)));
      if ok {
        var found := FindService(db.services, db.nextService, row.repo, row.name);
        assert IsService(db.services,
                         FindService(before.services, before.nextService, row.repo, row.name).GetOr(before.nextService),
                         row.repo, row.name);
        id := found.value;
      }
    }

    // name -> id, as upsertService reported it
    ghost predicate IdsFor(ids: map<string, nat>, tables: Tables, repo: nat) {
      forall name :: name in ids ==> FindService(tables.services, tables.nextService, repo, name) == Some(ids[name])
    }

    method PersistServices(repo: nat, fs: seq<ServiceFinding>, version: nat) returns (ids: map<string, nat>, ok: bool)
      modifies this
      ensures ok ==> db == ScanPipeline.PersistServices(old(db), repo, fs, version) && IdsFor(ids, db, repo)
      ensures !ok ==> budget == 0
    {
      ids, ok := map[], true;
      var i := 0;
      while i < |fs|
        invariant 0 <= i <= |fs| && ok
        invariant db == ScanPipeline.PersistServices(old(db), repo, fs[..i], version)
        invariant IdsFor(ids, db, repo)
      {
        ghost var before := db;
        var id;
        id, ok := UpsertService(ServiceRow(repo, fs[i], version));
        if !ok { return; }
        assert fs[..i + 1][..i] == fs[..i];
        forall name | name in ids && name != fs[i].name
          ensures FindService(db.services, db.nextService, repo, name) == Some(ids[name])
        {
          OtherNamesKeepTheirIds(before, ServiceRow(repo, fs[i], version), name);
        }
        ids := ids[fs[i].name := id];
        i := i + 1;
      }
      assert fs[..i] == fs;
    }

    method PersistConnections(repo: nat, cs: seq<ConnectionFinding>, rejected: set<nat>, version: nat,
                              serviceIds: map<string, nat>)
      returns (ids: map<nat, nat>, ok: bool)
      requires IdsFor(serviceIds, db, repo)
      modifies this
      ensures ok ==> ScanPipeline.PersistConnections(old(db), repo, cs, rejected, version) == Done(Stored(db, ids))
      ensures !ok ==> budget == 0 || ScanPipeline.PersistConnections(old(db), repo, cs, rejected, version).Thrown?
    {
      ids, ok := map[], true;
      var i := 0;
      while i < |cs|
        invariant 0 <= i <= |cs| && ok
        invariant ScanPipeline.PersistConnections(old(db), repo, cs[..i], rejected, version) == Done(Stored(db, ids))
        invariant db.services == old(db).services && db.nextService == old(db).nextService
      {
        assert cs[..i + 1][..i] == cs[..i];
        ids, ok := PersistConnection(repo, cs[i], i, rejected, version, serviceIds, ids);
        if !ok {
          if budget > 0 {
            PrefixThrows(old(db), repo, cs, i + 1, rejected, version);
          }
          return;
        }
        i := i + 1;
      }
      assert cs[..i] == cs;
    }

    method PersistConnection(repo: nat, f: ConnectionFinding, index: nat, rejected: set<nat>, version: nat,
                             serviceIds: map<string, nat>, ids: map<nat, nat>)
      returns (ids': map<nat, nat>, ok: bool)
      requires IdsFor(serviceIds, db, repo)
      modifies this
      ensures ok ==> ScanPipeline.PersistConnection(Stored(old(db), ids), repo, f, index, rejected, version)
                     == Done(Stored(db, ids'))
                     && db.services == old(db).services && db.nextService == old(db).nextService
      ensures !ok ==> budget == 0
                      || ScanPipeline.PersistConnection(Stored(old(db), ids), repo, f, index, rejected, version).Thrown?
    {
      var source := if f.source in serviceIds then Some(serviceIds[f.source]) else Resolve(db, repo, f.source);
      var target := if f.target in serviceIds then Some(serviceIds[f.target]) else Resolve(db, repo, f.target);
      assert source == Resolve(db, repo, f.source) && target == Resolve(db, repo, f.target);
      ids', ok := ids, true;
      if source.Some? && target.Some? && index !in rejected {
        var row := ConnectionRow(db, source.value, target.value, f, version);
        ids' := ids[index := db.nextConnection];
        ok := Exec(UpsertConnection(db, row));
      }
    }

    method PersistFields(schema: nat, fs: seq<FieldFinding>) returns (ok: bool)
      modifies this
      ensures ok ==> ScanPipeline.PersistFields(old(db), schema, fs) == Done(db)
      ensures !ok ==> budget == 0 || ScanPipeline.PersistFields(old(db), schema, fs).Thrown?
    {
      ok := true;
      var i := 0;
      while i < |fs|
        invariant 0 <= i <= |fs| && ok
        invariant ScanPipeline.PersistFields(old(db), schema, fs[..i]) == Done(db)
      {
        assert fs[..i + 1][..i] == fs[..i];
        ok := Exec(InsertField(db, FieldRow(schema, fs[i])));
        if !ok {
          if budget > 0 {
            FieldsPrefixThrows(old(db), schema, fs, i + 1);
          }
          return;
        }
        i := i + 1;
      }
      assert fs[..i] == fs;
    }

    method PersistSchemas(ids: map<nat, nat>, ss: seq<SchemaFinding>) returns (ok: bool)
      modifies this
      ensures ok ==> ScanPipeline.PersistSchemas(old(db), ids, ss) == Done(db)
      ensures !ok ==> budget == 0 || ScanPipeline.PersistSchemas(old(db), ids, ss).Thrown?
    {
      ok := true;
      var i := 0;
      while i < |ss|
        invariant 0 <= i <= |ss| && ok
        invariant ScanPipeline.PersistSchemas(old(db), ids, ss[..i]) == Done(db)
      {
        assert ss[..i + 1][..i] == ss[..i];
        ghost var before := db;
        var s := ss[i];
        if s.connectionIndex.Some? && s.connectionIndex.value in ids {
          var id := db.nextSchema;
          ok := Exec(InsertSchema(db, Schema(ids[s.connectionIndex.value], s.role, s.name, OrNull(s.file))));
          if ok {
            ok := PersistFields(id, s.fields);
          }
        }
        assert ok ==> PersistSchema(before, ids, s) == Done(db);
        if !ok {
          if budget > 0 {
            SchemasPrefixThrows(old(db), ids, ss, i + 1);
          }
          return;
        }
        i := i + 1;
      }
      assert ss[..i] == ss;
    }

    method PersistFindings(repo: nat, f: Findings, version: nat) returns (ok: bool)
      modifies this
      ensures ok ==> ScanPipeline.PersistFindings(old(db), repo, f, version) == Done(db)
      ensures !ok ==> budget == 0 || ScanPipeline.PersistFindings(old(db), repo, f, version).Thrown?
    {
      var serviceIds, connectionIds;
      serviceIds, ok := PersistServices(repo, f.services, version);
      if ok {
        connectionIds, ok := PersistConnections(repo, f.connections, f.rejected, version, serviceIds);
        if ok {
          ok := PersistSchemas(connectionIds, f.schemas);
        }
      }
    }

    // ---------------------------------------------------------------- applyPendingOverridesSync

    // One statement inside the try block of the pass: a failure of its own is caught, and only a dead engine ends
    // the pass.
    method TryExec(after: Outcome<Tables>, fails: bool) returns (live: bool, done: bool)
      modifies this
      ensures live ==> Mutation(db, done) == RunOne(old(db), after, fails)
      ensures !live ==> budget == 0
    {
      live := Tick();
      done := live && !fails && after.Done?;
      if done { db := after.value; }
    }

    // _applyOne
    method Mutate(o: Override, fault: Option<nat>) returns (live: bool, done: bool)
      modifies this
      ensures live ==> Mutation(db, done) == ScanPipeline.Mutate(old(db), o, fault)
      ensures !live ==> budget == 0
    {
      if o.kind.OnService? && o.action.Delete? {
        live, done := TryExec(DeleteConnections(db, Touching(db.connections, {o.target})), fault == Some(0));
        if live && done {
          live, done := TryExec(DeleteServices(db, {o.target}), fault == Some(1));
        }
      } else if MutationSize(o) == 0 {
        NoStatementNoChange(db, o);
        live, done := true, ApplyOne(db, o).Done?;
      } else {
        live, done := TryExec(ApplyOne(db, o), fault == Some(0));
      }
    }

    method ApplyPendingOverrides(version: nat, faults: map<nat, nat>)
        returns (applied: nat, skipped: nat, errors: nat, ok: bool)
      modifies this
      ensures ok ==> var p := ScanPipeline.ApplyPendingOverrides(old(db), version, faults);
                     db == p.db && applied == |p.applied| && skipped == p.skipped && errors == p.errors
      ensures !ok ==> budget == 0
    {
      hide ScanPipeline.Mutate, Allowed;
      applied, skipped, errors, ok := 0, 0, 0, true;
      var pending := db.overrides;
      ghost var before := db;
      var i := 0;
      while i < |pending|
        invariant 0 <= i <= |pending| && ok && |db.overrides| == |pending|
        invariant var p := ApplyFirst(before, i, version, faults);
                  db == p.db && applied == |p.applied| && skipped == p.skipped && errors == p.errors
      {
        if pending[i].stamp.None? {
          var o, fault := db.overrides[i], FaultOf(faults, i);
          if !Allowed(o) || o.payload.NotJson? {
            skipped := skipped + 1;
          } else {
            MutateKeepsOverrides(db, o, fault);
            var live, done := Mutate(o, fault);
            if live && done {
              live, done := TryExec(Done(db.(overrides := db.overrides[i := o.(stamp := Some(version))])),
                                    fault == Some(MutationSize(o)));
            }
            if !live {
              ok := false;
              return;
            }
            if done { applied := applied + 1; } else { errors := errors + 1; }
          }
        }
        i := i + 1;
      }
    }

    // ---------------------------------------------------------------- endScan

    method EndScan(repo: nat, version: nat, now: int) returns (ok: bool)
      modifies this
      ensures ok ==> ScanPipeline.EndScan(old(db), repo, version, now) == Done(db)
      ensures !ok ==> budget == 0 || ScanPipeline.EndScan(old(db), repo, version, now).Thrown?
    {
      hide DeleteUnstampedSchemas, DeleteConnections, DeleteServices, DeleteOrphans, Stale, Unversioned, Touching;
      ok := Exec(Done(DeleteUnstampedSchemas(db, repo, version)));
      if !ok { return; }
      var stale := Stale(db.services, repo, version);
      ok := Exec(DeleteConnections(db, Touching(db.connections, stale)));
      if !ok { return; }
      ok := Exec(DeleteServices(db, stale));
      if !ok { return; }
      var unversioned := Unversioned(db.services, repo);
      ok := Exec(DeleteConnections(db, Touching(db.connections, unversioned)));
      if !ok { return; }
      ok := Exec(DeleteServices(db, unversioned));
      if !ok { return; }
      ok := Exec(Done(DeleteOrphans(db)));
      if !ok { return; }
      ok := Exec(Done(if version !in db.versions then db
                      else db.(versions := db.versions[version := db.versions[version].(completedAt := Some(now))])));
    }

    // ---------------------------------------------------------------- _deleteDeletedFileFindings

    method DeleteDeletedFileFindings(repo: nat, files: seq<string>) returns (ok: bool)
      modifies this
      ensures Progress(db, budget, ok) == DeleteFiles(Progress(old(db), old(budget), true), repo, files)
    {
      hide DeleteFile;
      ghost var start := Progress(db, budget, true);
      ok := true;
      var i := 0;
      while i < |files|
        invariant 0 <= i <= |files|
        invariant Progress(db, budget, ok) == DeleteFiles(start, repo, files[..i])
      {
        assert files[..i + 1][..i] == files[..i];
        ok := DeleteFileFindings(repo, files[i], ok);
        i := i + 1;
      }
      assert files[..i] == files;
    }

    // One file: the connections of each service it defines, then the services. After a failure (going
    // is false) nothing more runs.
    method DeleteFileFindings(repo: nat, file: string, going: bool) returns (ok: bool)
      modifies this
      ensures Progress(db, budget, ok) == DeleteFile(Progress(old(db), old(budget), going), repo, file)
    {
      ghost var start := Progress(db, budget, going);
      var ids := ServicesIn(db.services, db.nextService, repo, file);
      ok := going;
      var j := 0;
      while j < |ids|
        invariant 0 <= j <= |ids|
        invariant Progress(db, budget, ok) == DeleteConnectionsOf(start, ids[..j])
      {
        assert ids[..j + 1][..j] == ids[..j];
        if ok {
          ok := Exec(DeleteConnections(db, Touching(db.connections, {ids[j]})));
        }
        j := j + 1;
      }
      assert ids[..j] == ids;
      if ok {
        ok := Exec(DeleteServices(db, set id | id in ids));
      }
    }

    // ---------------------------------------------------------------- persistScanResult

    // The body of db.transaction: on a throw, ROLLBACK puts the tables of BEGIN back.
    method WriteTransaction(s: Scan) returns (version: nat, ok: bool)
      requires Valid()
      modifies this
      ensures ok ==> WriteTx(old(db), s) == Done(db) && version == old(db).nextVersion
      ensures !ok ==> db == old(db) && (budget == 0 || WriteTx(old(db), s).Thrown?)
    {
      var begun := db;
      version, ok := BeginScan(s.repo, s.startedAt, s.cutoff);
      if ok {
        ok := WriteAfterBegin(s, version, begun);
      }
      if !ok {
        db := begun;
      }
    }

    method WriteAfterBegin(s: Scan, version: nat, ghost begun: Tables) returns (ok: bool)
      requires Settled(begun) && ScanTables.BeginScan(begun, s.repo, s.startedAt, s.cutoff) == Done(db)
      requires version == begun.nextVersion
      modifies this
      ensures ok ==> WriteTx(begun, s) == Done(db)
      ensures !ok ==> budget == 0 || WriteTx(begun, s).Thrown?
    {
      ok := true;
      if s.mode.Incremental? {
        ok := RestampExistingRows(s.repo, version);
        if !ok { return; }
      }
      assert AfterBegin(begun, s) == Done(db);
      ok := PersistFindings(s.repo, s.findings, version);
      if !ok { return; }
      var applied, skipped, errors;
      applied, skipped, errors, ok := ApplyPendingOverrides(version, s.faults);
      if !ok { return; }
      ok := EndScan(s.repo, version, s.now);
    }

    // A call is one step of a run, wherever it was cut off; a call that returns has run to the end.
    method PersistScanResult(s: Scan) returns (version: nat, ok: bool)
      requires Valid()
      modifies this
      ensures Valid()
      ensures ok ==> Returns(old(db), s, db) && version == old(db).nextVersion
      ensures exists cut :: db == Step(old(db), RunScan(s, cut))
      ensures WriteTx(old(db), s).Thrown? ==> !ok && db == old(db)
      ensures !ok ==> budget == 0 || WriteTx(old(db), s).Thrown?
                      || (s.mode.Incremental? && SchemaOnDoomed(WriteTx(old(db), s).value, s.repo, s.deleted))
      ensures NoPending(old(db)) && !ok ==> budget == 0 || AnyFails(old(db), s) || CleanupFails(old(db), s)
    {
      hide WriteTx, AfterCleanup, Settled, SchemaOnDoomed, NoPending, AnyFails, CleanupFails;
      ghost var start := db;
      FailuresAreForeseen(db, s);
      version, ok := WriteTransaction(s);
      if !ok {
        assert db == Step(start, RunScan(s, InTransaction));
        return;
      }
      ghost var left := budget;
      if s.mode.Incremental? {
        ok := DeleteDeletedFileFindings(s.repo, s.deleted);
      }
      CleanupOf(WriteTx(start, s).value, s, left);
      assert Progress(db, budget, ok) == AfterCleanup(WriteTx(start, s).value, s, left);
      assert db == Step(start, RunScan(s, InCleanup(left)));
      StepKeepsSettled(start, RunScan(s, InCleanup(left)));
      CleanupStops(start, s, left);
    }
  }

  // With no override pending, what stops a call short of the engine shows in the tables before it.
  lemma FailuresAreForeseen(db: Tables, s: Scan)
    requires Settled(db)
    ensures NoPending(db) && WriteTx(db, s).Thrown? ==> AnyFails(db, s)
    ensures NoPending(db) && s.mode.Incremental? && WriteTx(db, s).Done? ==>
              SchemaOnDoomed(WriteTx(db, s).value, s.repo, s.deleted) ==> CleanupFails(db, s)
  {
    hide *;
    if NoPending(db) {
      AnyScanThrowsIff(db, s);
      if s.mode.Incremental? && WriteTx(db, s).Done? {
        CleanupFailsIff(db, s);
      }
    }
  }

  lemma NoStatementNoChange(db: Tables, o: Override)
    requires MutationSize(o) == 0
    ensures ApplyOne(db, o).Thrown? || ApplyOne(db, o) == Done(db)
  {
  }

  // A cleanup that does not run to its end has met a schema or used up its statements.
  lemma CleanupStops(db: Tables, s: Scan, budget: nat)
    requires Settled(db) && WriteTx(db, s).Done?
    ensures var q := AfterCleanup(WriteTx(db, s).value, s, budget);
            !q.ok ==> q.budget == 0 || (s.mode.Incremental? && SchemaOnDoomed(WriteTx(db, s).value, s.repo, s.deleted))
  {
    WriteTxSettles(db, s);
    hide WriteTx, DeleteFiles, SchemaOnDoomed;
    var after := WriteTx(db, s).value;
    if s.mode.Incremental? && !SchemaOnDoomed(after, s.repo, s.deleted) {
      CleanupNeeds(after, s.repo, s.deleted, budget);
    }
  }

  lemma CleanupOf(db: Tables, s: Scan, budget: nat)
    ensures AfterCleanup(db, s, budget)
            == if s.mode.Incremental? then DeleteFiles(Progress(db, budget, true), s.repo, s.deleted)
               else Progress(db, budget, true)
  {
  }

  lemma OtherNamesKeepTheirIds(db: Tables, row: Service, name: string)
    requires name != row.name && FindService(db.services, db.nextService, row.repo, name).Some?
    ensures var after := UpsertService(db, row);
            FindService(after.services, after.nextService, row.repo, name)
                == FindService(db.services, db.nextService, row.repo, name)
  {
    var after := UpsertService(db, row);
    var id := FindService(db.services, db.nextService, row.repo, name).value;
    assert forall x: nat :: x < db.nextService ==>
           (IsService(after.services, x, row.repo, name) <==> IsService(db.services, x, row.repo, name));
  }

  lemma {:induction false} PrefixThrows(db: Tables, repo: nat, cs: seq<ConnectionFinding>, i: nat, rejected: set<nat>,
                                        version: nat)
    requires i <= |cs| && PersistConnections(db, repo, cs[..i], rejected, version).Thrown?
    ensures PersistConnections(db, repo, cs, rejected, version).Thrown?
    decreases |cs| - i
  {
    if i < |cs| {
      assert cs[..i + 1][..i] == cs[..i];
      PrefixThrows(db, repo, cs, i + 1, rejected, version);
    } else {
      assert cs[..i] == cs;
    }
  }

  lemma {:induction false} FieldsPrefixThrows(db: Tables, schema: nat, fs: seq<FieldFinding>, i: nat)
    requires i <= |fs| && PersistFields(db, schema, fs[..i]).Thrown?
    ensures PersistFields(db, schema, fs).Thrown?
    decreases |fs| - i
  {
    if i < |fs| {
      assert fs[..i + 1][..i] == fs[..i];
      FieldsPrefixThrows(db, schema, fs, i + 1);
    } else {
      assert fs[..i] == fs;
    }
  }

  lemma {:induction false} SchemasPrefixThrows(db: Tables, ids: map<nat, nat>, ss: seq<SchemaFinding>, i: nat)
    requires i <= |ss| && PersistSchemas(db, ids, ss[..i]).Thrown?
    ensures PersistSchemas(db, ids, ss).Thrown?
    decreases |ss| - i
  {
    if i < |ss| {
      assert ss[..i + 1][..i] == ss[..i];
      SchemasPrefixThrows(db, ids, ss, i + 1);
    } else {
      assert ss[..i] == ss;
    }
  }
}
