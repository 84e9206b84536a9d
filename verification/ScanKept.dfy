// What a committed scan keeps of the repo's own connections, schemas and fields.
module ScanKept {
  import opened Common
  import opened ScanTables
  import opened ScanPipeline
  import opened ScanIntegrity
  import opened ScanRuns
  import opened ScanEffects
  import opened ScanTheorems
  import opened ScanRescan
  import opened ScanCommits

  // ---------------------------------------------------------------- the scan itself

  // A committed scan records itself, under the next id, as begun and completed when it was, and no other.
  lemma ScanIsRecorded(db: Tables, s: Scan)
    requires Settled(db) && NoPending(db) && WriteTx(db, s).Done?
    ensures WriteTx(db, s).value.versions
        == db.versions[db.nextVersion := ScanVersion(s.repo, s.startedAt, Some(s.now))]
    ensures WriteTx(db, s).value.nextVersion == db.nextVersion + 1 && db.nextVersion !in db.versions
  {
    hide WriteTx, Settled, WellFormed, NoPending, PersistConnections, PersistSchemas, Unblocked, Stages, AfterBegin,
         Current, Among, KeptSchemas, FieldsOf;
    var d1, d2, st, d4 := StagesOfAScan(db, s);
    RecordedWhenWritten(db, s, d1, d2, st, d4);
    BegunOnce(db);
  }

  lemma RecordedWhenWritten(db: Tables, s: Scan, d1: Tables, d2: Tables, st: Stored, d4: Tables)
    requires Settled(db) && Stages(db, s, d1, d2, st, d4) && AfterBegin(db, s) == Done(d1)
    ensures d4.versions == db.versions[db.nextVersion := ScanVersion(s.repo, s.startedAt, None)]
    ensures d4.nextVersion == db.nextVersion + 1
  {
    hide Stages, Settled, BeginScan;
    BeginningAScan(db, s);
    VersionsStay(db, s, d1, d2, st, d4);
    hide AfterBegin;
    RestampKeepsVersionsTable(Begun(db, s), s.repo, db.nextVersion);
    hide Restamp;
  }

  lemma VersionsStay(db: Tables, s: Scan, d1: Tables, d2: Tables, st: Stored, d4: Tables)
    requires Stages(db, s, d1, d2, st, d4)
    ensures d4.versions == d1.versions && d4.nextVersion == d1.nextVersion
  {
    hide Carried, ServicesPersisted, ConnectionsPersisted, AllStored;
  }

  lemma RestampKeepsVersionsTable(db: Tables, repo: nat, n: nat)
    ensures Restamp(db, repo, n).versions == db.versions && Restamp(db, repo, n).nextVersion == db.nextVersion
  {
    hide LatestCompleted, RestampServices, RestampConnections;
  }

  lemma BegunOnce(db: Tables)
    requires Settled(db)
    ensures db.nextVersion !in db.versions
  {
    assert IdsBelow(db.versions, db.nextVersion);
  }

  // ---------------------------------------------------------------- connections of a full scan

  // A full scan keeps every old connection between services that stay, found again or not, up to the rows that a
  // stored finding with the same concrete key replaces.
  lemma FullScanKeepsConnections(db: Tables, s: Scan, c: nat)
    requires Settled(db) && NoPending(db) && s.mode.Full? && WriteTx(db, s).Done? && c in db.connections
    requires var after := WriteTx(db, s).value.services;
             db.connections[c].source in after && db.connections[c].target in after
    ensures KeptConnection(db, s, WriteTx(db, s).value.connections, c)
  {
    var d1, d2, st, d4 := StagesOfAScan(db, s);
    ConnectionsWhenWritten(db, s, d1, d2, st, d4, c);
    EndScanServices(d4, s.repo, db.nextVersion, s.now);
    KeptByEndScan(db, s, d1, d2, st, d4);
    hide WriteTx, Settled, NoPending, WellFormed, EndScanResult, Stages, KeptConnection, Among, Current;
    KeptAmongSurvivors(db, s, st.db.connections, Current(d4.services, s.repo, db.nextVersion), c);
  }

  lemma KeptByEndScan(db: Tables, s: Scan, d1: Tables, d2: Tables, st: Stored, d4: Tables)
    requires Stages(db, s, d1, d2, st, d4)
    ensures db.nextVersion in d4.versions
    ensures EndScanResult(d4, s.repo, db.nextVersion, s.now).connections
            == Among(st.db.connections, Current(d4.services, s.repo, db.nextVersion))
  {
    hide ServicesPersisted, ConnectionsPersisted, AllStored, Carried, Among, Current;
  }

  // ---------------------------------------------------------------- schemas and fields

  // Does the scan stamp the row when it begins? An incremental scan moves the connections out of the repo that the
  // repo's latest completed scan stamped.
  ghost predicate MovesToThisScan(db: Tables, s: Scan, c: nat)
    requires c in db.connections
  {
    && s.mode.Incremental? && Owned(db, db.connections[c], s.repo)
    && db.connections[c].version.Some?
    && db.connections[c].version == LatestCompleted(db.versions, db.nextVersion, s.repo)
  }

  lemma RestampedVersion(db: Tables, s: Scan, c: nat)
    requires Settled(db) && s.repo in db.repos && c in db.connections
    ensures AfterBegin(db, s).Done? && c in AfterBegin(db, s).value.connections
    ensures AfterBegin(db, s).value.connections[c].version
            == if MovesToThisScan(db, s, c) then Some(db.nextVersion) else db.connections[c].version
  {
    hide Settled, WellFormed, LatestCompleted, BeginScan, Restamp;
    BeginningAScan(db, s);
    hide AfterBegin;
    SameLatest(db, s);
    if s.mode.Incremental? {
      VersionAfterRestamp(Begun(db, s), s.repo, db.nextVersion, c);
    }
  }

  lemma VersionAfterRestamp(db: Tables, repo: nat, n: nat, c: nat)
    requires c in db.connections
    ensures var after, latest := Restamp(db, repo, n).connections, LatestCompleted(db.versions, db.nextVersion, repo);
            && c in after
            && after[c].version
               == if latest.Some? && Owned(db, db.connections[c], repo) && db.connections[c].version == latest
                  then Some(n) else db.connections[c].version
  {
    hide LatestCompleted;
  }

  lemma SameLatest(db: Tables, s: Scan)
    requires Settled(db)
    ensures LatestCompleted(Begun(db, s).versions, db.nextVersion + 1, s.repo)
            == LatestCompleted(db.versions, db.nextVersion, s.repo)
  {
    var now := LatestCompleted(Begun(db, s).versions, db.nextVersion + 1, s.repo);
    var before := LatestCompleted(db.versions, db.nextVersion, s.repo);
    forall v: nat ensures IsCompleted(Begun(db, s).versions, v, s.repo) <==> IsCompleted(db.versions, v, s.repo) {
      assert IdsBelow(db.versions, db.nextVersion);
    }
    hide LatestCompleted, Settled, Stamped;
    if now.Some? {
      assert IsCompleted(Begun(db, s).versions, now.value, s.repo);
      assert IsCompleted(db.versions, now.value, s.repo);
    }
    if before.Some? {
      assert IsCompleted(db.versions, before.value, s.repo);
      assert IsCompleted(Begun(db, s).versions, before.value, s.repo);
    }
  }

  // A connection with a schema stays as it is until endScan.
  lemma HeldConnectionStays(db: Tables, s: Scan, c: nat) returns (d4: Tables)
    requires Settled(db) && NoPending(db) && WriteTx(db, s).Done? && c in db.connections && HasSchema(db.schemas, {c})
    ensures db.nextVersion in d4.versions && WriteTx(db, s).value == EndScanResult(d4, s.repo, db.nextVersion, s.now)
    ensures c in d4.connections
    ensures d4.connections[c].version
            == if MovesToThisScan(db, s, c) then Some(db.nextVersion) else db.connections[c].version
    ensures Owned(d4, d4.connections[c], s.repo) <==> Owned(db, db.connections[c], s.repo)
    ensures OldSchemasStay(db, d4)
  {
    hide WriteTx, NoPending, Settled, WellFormed, HasSchema, Stages, MovesToThisScan, Unblocked;
    BeginningAScan(db, s);
    hide AfterBegin;
    var d1, d2, st;
    d1, d2, st, d4 := StagesOfAScan(db, s);
    RestampedVersion(db, s, c);
    BeforeTheConnections(db, s, d1, d2, st, d4, c);
    SchemaHoldsItsConnection(d2, s.repo, s.findings.connections, s.findings.rejected, db.nextVersion, c);
    hide PersistConnections, PersistSchemas;
    SettledIsWellFormed(db);
    ServicesWhenWritten(db, s, d1, d2, st, d4);
    DanglingNowhere(db);
    OldNames(db.services, d2.services, s, db.nextVersion, db.connections[c].source);
    hide Written;
  }

  ghost predicate OldSchemasStay(db: Tables, d4: Tables) {
    && (forall x :: x in db.schemas ==> x in d4.schemas && d4.schemas[x] == db.schemas[x])
    && (forall f :: f in db.fields ==> f in d4.fields && d4.fields[f] == db.fields[f])
  }

  lemma BeforeTheConnections(db: Tables, s: Scan, d1: Tables, d2: Tables, st: Stored, d4: Tables, c: nat)
    requires Stages(db, s, d1, d2, st, d4) && c in db.connections
    ensures d2.connections == d1.connections && c in d2.connections
            && d2.connections[c].source == db.connections[c].source
    ensures d2.schemas == db.schemas && d4.connections == st.db.connections && db.nextVersion in d4.versions
    ensures OldSchemasStay(db, d4)
  {
    hide ServicesPersisted, ConnectionsPersisted, AllStored;
    assert SameButVersion(d1.connections[c], db.connections[c]);
  }

  // Does the scan keep the schemas of connection c? Of the repo's own connections only those it stamps, by moving
  // them when it begins; a full scan keeps none.
  ghost predicate KeepsSchemasOf(db: Tables, s: Scan, c: nat)
    requires c in db.connections
  {
    !Owned(db, db.connections[c], s.repo) || MovesToThisScan(db, s, c)
  }

  // A committed scan keeps an old schema, and the fields of it, exactly if another repo owns the connection or an
  // incremental scan moved it; the connection itself may stay without them.
  lemma SchemasAfterAScan(db: Tables, s: Scan, x: nat)
    requires Settled(db) && NoPending(db) && WriteTx(db, s).Done? && x in db.schemas
    ensures db.schemas[x].connection in db.connections
    ensures var after := WriteTx(db, s).value;
            && (x in after.schemas <==> KeepsSchemasOf(db, s, db.schemas[x].connection))
            && (x in after.schemas ==> after.schemas[x] == db.schemas[x])
            && (forall f :: f in db.fields && db.fields[f].schema == x ==>
                  (f in after.fields <==> x in after.schemas)
                      && (f in after.fields ==> after.fields[f] == db.fields[f]))
  {
    hide WriteTx, NoPending, Settled, WellFormed, MovesToThisScan, EndScanResult;
    SettledIsWellFormed(db);
    SchemaConnectionIsOld(db, x);
    var c := db.schemas[x].connection;
    assert HasSchema(db.schemas, {c});
    hide HasSchema;
    var d4 := HeldConnectionStays(db, s, c);
    if !MovesToThisScan(db, s, c) {
      OldStampsAreOld(db, c);
    }
    hide Owned, Current, Among;
    assert SurvivesCleanup(d4, d4.schemas[x], s.repo, db.nextVersion) <==> KeepsSchemasOf(db, s, c);
    SchemasOfResult(d4, s.repo, db.nextVersion, s.now, x);
  }

  lemma SchemasOfResult(d4: Tables, repo: nat, n: nat, now: int, x: nat)
    requires n in d4.versions && x in d4.schemas
    ensures var after := EndScanResult(d4, repo, n, now);
            && (x in after.schemas <==> SurvivesCleanup(d4, d4.schemas[x], repo, n))
            && (x in after.schemas ==> after.schemas[x] == d4.schemas[x])
            && (forall f :: f in d4.fields && d4.fields[f].schema == x ==>
                  (f in after.fields <==> x in after.schemas)
                      && (f in after.fields ==> after.fields[f] == d4.fields[f]))
  {
    hide SurvivesCleanup, Current, Among;
  }
}
