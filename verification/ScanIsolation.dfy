// Repo isolation: a scan of one repo leaves every other repo's rows alone.
module ScanIsolation {
  import opened Common
  import opened ScanTables
  import opened ScanPipeline
  import opened ScanIntegrity
  import opened ScanRuns
  import opened ScanEffects
  import opened ScanTheorems

  // A connection belongs to the repo of its source service, a schema to its connection's repo, a
  // field to its schema's repo.
  ghost predicate ForeignService(db: Tables, x: nat, repo: nat) {
    x in db.services && db.services[x].repo != repo
  }

  ghost predicate ForeignConnection(db: Tables, c: nat, repo: nat) {
    c in db.connections && !Owned(db, db.connections[c], repo)
  }

  ghost predicate ForeignSchema(db: Tables, x: nat, repo: nat) {
    x in db.schemas && ForeignConnection(db, db.schemas[x].connection, repo)
  }

  ghost predicate ForeignField(db: Tables, f: nat, repo: nat) {
    f in db.fields && ForeignSchema(db, db.fields[f].schema, repo)
  }

  ghost predicate SameForeignServices(db: Tables, after: Tables, repo: nat) {
    && (forall x :: ForeignService(db, x, repo) <==> ForeignService(after, x, repo))
    && (forall x :: ForeignService(db, x, repo) ==> after.services[x] == db.services[x])
  }

  ghost predicate SameForeignConnections(db: Tables, after: Tables, repo: nat) {
    && (forall c :: ForeignConnection(db, c, repo) <==> ForeignConnection(after, c, repo))
    && (forall c :: ForeignConnection(db, c, repo) ==> after.connections[c] == db.connections[c])
  }

  ghost predicate SameForeignSchemas(db: Tables, after: Tables, repo: nat) {
    && (forall x :: ForeignSchema(db, x, repo) <==> ForeignSchema(after, x, repo))
    && (forall x :: ForeignSchema(db, x, repo) ==> after.schemas[x] == db.schemas[x])
  }

  ghost predicate SameForeignFields(db: Tables, after: Tables, repo: nat) {
    && (forall f :: ForeignField(db, f, repo) <==> ForeignField(after, f, repo))
    && (forall f :: ForeignField(db, f, repo) ==> after.fields[f] == db.fields[f])
  }

  // A foreign connection stays as it is, or goes because the service it points to is gone.
  ghost predicate IsolatedConnections(db: Tables, after: Tables, repo: nat) {
    && (forall c :: ForeignConnection(db, c, repo) ==>
          (ForeignConnection(after, c, repo) <==> db.connections[c].target in after.services))
    && (forall c :: ForeignConnection(after, c, repo) ==>
          ForeignConnection(db, c, repo) && after.connections[c] == db.connections[c])
  }

  // Other repos keep their rows, and gain none, except for connections into a service that is gone.
  ghost predicate Isolated(db: Tables, after: Tables, repo: nat) {
    && SameForeignServices(db, after, repo) && IsolatedConnections(db, after, repo)
    && SameForeignSchemas(db, after, repo) && SameForeignFields(db, after, repo)
  }

  // Every connection's source and target is the name of a service in the same findings.
  ghost predicate Closed(f: Findings) {
    forall j :: 0 <= j < |f.connections| ==>
      Named(f.services, f.connections[j].source) && Named(f.services, f.connections[j].target)
  }

  lemma NamedResolvesHere(db: Tables, repo: nat, name: string)
    requires WellFormed(db) && HasService(db.services, repo, name)
    ensures Resolve(db, repo, name).Some?
    ensures IsService(db.services, Resolve(db, repo, name).value, repo, name)
  {
    var x: nat :| IsService(db.services, x, repo, name);
    assert x < db.nextService;
  }

  // With closed findings, both ends of a stored key are services of the scanned repo.
  lemma StoredKeysAreOwn(db: Tables, repo: nat, f: Findings, k: Key)
    requires WellFormed(db) && Closed(f) && IsStored(db, repo, f.connections, f.rejected, k)
    requires forall name :: Named(f.services, name) ==> HasService(db.services, repo, name)
    ensures k.source in db.services && IsNamedHere(db.services[k.source], repo, f.services)
    ensures k.target in db.services && IsNamedHere(db.services[k.target], repo, f.services)
  {
    var j :| 0 <= j < |f.connections| && StoredKey(db, repo, f.connections, f.rejected, j) == Some(k);
    NamedResolvesHere(db, repo, f.connections[j].source);
    NamedResolvesHere(db, repo, f.connections[j].target);
  }

  // Up to the end of the findings, other repos lose nothing at all.
  ghost predicate Untouched(db: Tables, d4: Tables, repo: nat) {
    && SameForeignServices(db, d4, repo) && SameForeignConnections(db, d4, repo)
    && SameForeignSchemas(db, d4, repo) && SameForeignFields(db, d4, repo)
  }

  lemma ForeignServicesUntouched(before: map<nat, Service>, written: map<nat, Service>, s: Scan, n: nat)
    requires Written(before, written, s, n)
    ensures forall x :: (x in before && before[x].repo != s.repo) <==> (x in written && written[x].repo != s.repo)
    ensures forall x :: x in before && before[x].repo != s.repo ==> written[x] == before[x]
  {
  }

  lemma OldConnectionsKeepTheirOwner(db: Tables, s: Scan, d1: Tables, d2: Tables, st: Stored, d4: Tables, c: nat)
    requires WellFormed(db) && WellFormed(d2) && Closed(s.findings) && Stages(db, s, d1, d2, st, d4)
    requires c in db.connections
    ensures ForeignConnection(db, c, s.repo) <==> ForeignConnection(d4, c, s.repo)
    ensures ForeignConnection(db, c, s.repo) ==> d4.connections[c] == db.connections[c]
  {
    hide ServicesPersisted, WellFormed, AllStored, HasNewRow, Closed, ServiceRow, LastNamed, CarriedService, StoredKey;
    var f := s.findings;
    ServicesWhenWritten(db, s, d1, d2, st, d4);
    ConnectionsWhenWritten(db, s, d1, d2, st, d4, c);
    assert NoDangling(db.connections, db.services) by { DeclaredConstraints(db); }
    if c !in d4.connections {
      assert IsStored(d2, s.repo, f.connections, f.rejected, KeyOf(d2.connections[c]));
      StoredKeysAreOwn(d2, s.repo, f, KeyOf(db.connections[c]));
    }
  }

  lemma NewConnectionsAreOwn(db: Tables, s: Scan, d1: Tables, d2: Tables, st: Stored, d4: Tables, c: nat)
    requires WellFormed(d2) && Closed(s.findings) && Stages(db, s, d1, d2, st, d4)
    requires c in d4.connections && c !in db.connections
    ensures Owned(d4, d4.connections[c], s.repo)
  {
    ServicesWhenWritten(db, s, d1, d2, st, d4);
    hide ServicesPersisted, WellFormed;
    StoredKeysAreOwn(d2, s.repo, s.findings, KeyOf(d4.connections[c]));
  }

  lemma ForeignConnectionsUntouched(db: Tables, s: Scan, d1: Tables, d2: Tables, st: Stored, d4: Tables, c: nat)
    requires WellFormed(db) && WellFormed(d2) && Closed(s.findings) && Stages(db, s, d1, d2, st, d4)
    ensures ForeignConnection(db, c, s.repo) <==> ForeignConnection(d4, c, s.repo)
    ensures ForeignConnection(db, c, s.repo) ==> d4.connections[c] == db.connections[c]
    ensures c in d4.connections && c >= db.nextConnection ==> Owned(d4, d4.connections[c], s.repo)
  {
    hide Stages, WellFormed, Closed, Owned;
    DeclaredConstraints(db);
    if c in db.connections {
      OldConnectionsKeepTheirOwner(db, s, d1, d2, st, d4, c);
    } else if c in d4.connections {
      NewConnectionsAreOwn(db, s, d1, d2, st, d4, c);
    }
  }

  // Schemas and fields are only added, to connections the scan inserted.
  ghost predicate NewSchemasOnly(db: Tables, d4: Tables) {
    && (forall x :: x in db.schemas ==> x in d4.schemas && d4.schemas[x] == db.schemas[x])
    && (forall x :: x in d4.schemas && x !in db.schemas ==> d4.schemas[x].connection >= db.nextConnection)
    && (forall f :: f in db.fields ==> f in d4.fields && d4.fields[f] == db.fields[f])
    && (forall f :: f in d4.fields && f !in db.fields ==>
        d4.fields[f].schema in d4.schemas && d4.fields[f].schema !in db.schemas)
  }

  lemma SchemasWhenWritten(db: Tables, s: Scan, d1: Tables, d2: Tables, st: Stored, d4: Tables)
    requires Stages(db, s, d1, d2, st, d4)
    ensures NewSchemasOnly(db, d4)
  {
    assert st.db.schemas == db.schemas && st.db.fields == db.fields && d2.nextConnection == db.nextConnection by {
      hide ServicesPersisted, ConnectionsPersisted, AllStored, OnlyAddsSchemas;
    }
    assert forall j :: j in st.ids ==> db.nextConnection <= st.ids[j];
    hide ServicesPersisted, ConnectionsPersisted, AllStored, Carried;
  }

  lemma ForeignSchemasUntouched(db: Tables, s: Scan, d1: Tables, d2: Tables, st: Stored, d4: Tables, x: nat)
    requires WellFormed(db) && WellFormed(d2) && WellFormed(d4) && Closed(s.findings) && Stages(db, s, d1, d2, st, d4)
    ensures ForeignSchema(db, x, s.repo) <==> ForeignSchema(d4, x, s.repo)
    ensures ForeignSchema(db, x, s.repo) ==> x in db.schemas && x in d4.schemas && d4.schemas[x] == db.schemas[x]
  {
    hide WellFormed, Stages, Closed;
    SchemasWhenWritten(db, s, d1, d2, st, d4);
    DeclaredConstraints(db);
    DeclaredConstraints(d4);
    if x in d4.schemas {
      ForeignConnectionsUntouched(db, s, d1, d2, st, d4, d4.schemas[x].connection);
    }
  }

  lemma ForeignSchemasExist(db: Tables, repo: nat)
    ensures forall x :: ForeignSchema(db, x, repo) ==> x in db.schemas
  {
  }

  lemma NewFieldsAreOwn(db: Tables, s: Scan, d4: Tables)
    requires NewSchemasOnly(db, d4) && SameForeignSchemas(db, d4, s.repo)
    ensures SameForeignFields(db, d4, s.repo)
  {
    ForeignSchemasExist(db, s.repo);
    hide ForeignSchema;
  }

  lemma FindingsKeepForeignServices(db: Tables, s: Scan, d1: Tables, d2: Tables, st: Stored, d4: Tables)
    requires Stages(db, s, d1, d2, st, d4)
    ensures SameForeignServices(db, d4, s.repo)
  {
    ServicesWhenWritten(db, s, d1, d2, st, d4);
    ForeignServicesUntouched(db.services, d2.services, s, db.nextVersion);
    hide Stages, Written;
  }

  lemma FindingsKeepForeignConnections(db: Tables, s: Scan, d1: Tables, d2: Tables, st: Stored, d4: Tables)
    requires WellFormed(db) && WellFormed(d2) && WellFormed(d4) && Closed(s.findings) && Stages(db, s, d1, d2, st, d4)
    ensures SameForeignConnections(db, d4, s.repo)
  {
    hide Stages, WellFormed, Closed, Owned;
    forall c | ForeignConnection(db, c, s.repo) || ForeignConnection(d4, c, s.repo)
      ensures ForeignConnection(db, c, s.repo) && ForeignConnection(d4, c, s.repo)
              && d4.connections[c] == db.connections[c]
    {
      ForeignConnectionsUntouched(db, s, d1, d2, st, d4, c);
    }
  }

  lemma FindingsKeepForeignSchemas(db: Tables, s: Scan, d1: Tables, d2: Tables, st: Stored, d4: Tables)
    requires WellFormed(db) && WellFormed(d2) && WellFormed(d4) && Closed(s.findings) && Stages(db, s, d1, d2, st, d4)
    ensures SameForeignSchemas(db, d4, s.repo)
  {
    ForeignSchemasExist(d4, s.repo);
    hide Stages, WellFormed, Closed, ForeignSchema;
    forall x | ForeignSchema(db, x, s.repo) || ForeignSchema(d4, x, s.repo)
      ensures ForeignSchema(db, x, s.repo) && ForeignSchema(d4, x, s.repo)
              && x in db.schemas && x in d4.schemas && d4.schemas[x] == db.schemas[x]
    {
      ForeignSchemasUntouched(db, s, d1, d2, st, d4, x);
    }
  }

  lemma FindingsLeaveOthersUntouched(db: Tables, s: Scan, d1: Tables, d2: Tables, st: Stored, d4: Tables)
    requires WellFormed(db) && WellFormed(d2) && WellFormed(d4) && Closed(s.findings) && Stages(db, s, d1, d2, st, d4)
    ensures Untouched(db, d4, s.repo)
  {
    FindingsKeepForeignServices(db, s, d1, d2, st, d4);
    FindingsKeepForeignConnections(db, s, d1, d2, st, d4);
    FindingsKeepForeignSchemas(db, s, d1, d2, st, d4);
    SchemasWhenWritten(db, s, d1, d2, st, d4);
    NewFieldsAreOwn(db, s, d4);
  }

  // ---------------------------------------------------------------- the deletions

  // After: some of the repo's services are gone, with every connection touching them; a foreign
  // schema is kept, and so is each of its fields.
  ghost predicate RemovesOwnServices(db: Tables, after: Tables, repo: nat) {
    && WellFormed(db) && WellFormed(after)
    && (forall x :: x in after.services ==> x in db.services && after.services[x] == db.services[x])
    && (forall x :: x in db.services && x !in after.services ==> db.services[x].repo == repo)
    && after.connections == Among(db.connections, after.services.Keys)
    && (forall x :: x in after.schemas ==> x in db.schemas && after.schemas[x] == db.schemas[x])
    && (forall x :: ForeignSchema(db, x, repo) ==> x in after.schemas)
    && after.fields == FieldsOf(db.fields, after.schemas)
  }

  lemma RemovalIsolates(db: Tables, after: Tables, repo: nat)
    requires RemovesOwnServices(db, after, repo)
    ensures Isolated(db, after, repo)
  {
    hide WellFormed, Among, SameForeignSchemas, SameForeignFields, ForeignSchema;
    DeclaredConstraints(db);
    RemovalKeepsForeignConnections(db, after, repo);
    RemovalKeepsForeignSchemas(db, after, repo);
    RemovalKeepsForeignFields(db, after, repo);
    assert SameForeignServices(db, after, repo) && IsolatedConnections(db, after, repo);
  }

  lemma RemovalKeepsForeignFields(db: Tables, after: Tables, repo: nat)
    requires SameForeignSchemas(db, after, repo) && after.fields == FieldsOf(db.fields, after.schemas)
    ensures SameForeignFields(db, after, repo)
  {
    ForeignSchemasExist(after, repo);
    hide ForeignSchema;
  }

  lemma RemovalKeepsForeignSchemas(db: Tables, after: Tables, repo: nat)
    requires RemovesOwnServices(db, after, repo)
    ensures SameForeignSchemas(db, after, repo)
  {
    DeclaredConstraints(db);
    DeclaredConstraints(after);
    RemovalKeepsForeignConnections(db, after, repo);
    hide WellFormed, Owned, Among;
    forall x | x in after.schemas ensures ForeignSchema(db, x, repo) <==> ForeignSchema(after, x, repo) {
      assert after.schemas[x].connection in after.connections;
    }
  }

  lemma RemovalKeepsForeignConnections(db: Tables, after: Tables, repo: nat)
    requires NoDangling(db.connections, db.services)
    requires forall x :: x in after.services ==> x in db.services && after.services[x] == db.services[x]
    requires forall x :: x in db.services && x !in after.services ==> db.services[x].repo == repo
    requires after.connections == Among(db.connections, after.services.Keys)
    ensures forall c :: ForeignConnection(after, c, repo)
                        <==> ForeignConnection(db, c, repo) && db.connections[c].target in after.services
    ensures forall c :: c in after.connections ==> after.connections[c] == db.connections[c]
    ensures forall c :: c in after.connections ==>
            (ForeignConnection(after, c, repo) <==> ForeignConnection(db, c, repo))
  {
  }

  lemma UntouchedThenIsolated(db: Tables, d4: Tables, after: Tables, repo: nat)
    requires Untouched(db, d4, repo) && Isolated(d4, after, repo)
    ensures Isolated(db, after, repo)
  {
    hide ForeignService, ForeignConnection, ForeignSchema, ForeignField;
  }

  lemma IsolatedTwice(a: Tables, b: Tables, c: Tables, repo: nat)
    requires Isolated(a, b, repo) && Isolated(b, c, repo)
    requires forall x :: x in c.services ==> x in b.services
    ensures Isolated(a, c, repo)
  {
    hide ForeignService, Owned, ForeignSchema, ForeignField;
    forall x | ForeignConnection(a, x, repo)
      ensures ForeignConnection(c, x, repo) <==> a.connections[x].target in c.services
    {
      if a.connections[x].target in c.services {
        assert ForeignConnection(b, x, repo);
      }
    }
  }

  lemma EndScanRemovesOwnServices(d4: Tables, repo: nat, n: nat, now: int)
    requires WellFormed(d4) && n in d4.versions && Unblocked(d4, repo, n)
    ensures RemovesOwnServices(d4, EndScanResult(d4, repo, n, now), repo)
  {
    hide WellFormed, EndScan, Blocks, ForeignSchema, SurvivesCleanup, KeptSchemas, Among, FieldsOf;
    EndScanThrowsIffBlocked(d4, repo, n, now);
    EndScanClosedForm(d4, repo, n, now);
    ForeignSchemasSurvive(d4, repo, n);
    var after := EndScanResult(d4, repo, n, now);
    assert after.services.Keys == Current(d4.services, repo, n);
  }

  lemma ForeignSchemasSurvive(d4: Tables, repo: nat, n: nat)
    ensures forall x :: ForeignSchema(d4, x, repo) ==> x in KeptSchemas(d4, repo, n)
    ensures forall x :: x in KeptSchemas(d4, repo, n) ==>
            x in d4.schemas && KeptSchemas(d4, repo, n)[x] == d4.schemas[x]
  {
  }

  lemma FileCleanupRemovesOwnServices(r: Tables, db': Tables, repo: nat, files: seq<string>)
    requires WellFormed(r) && WellFormed(db') && FilesDeleted(r, db', repo, files)
    requires db' == r.(services := db'.services, connections := db'.connections)
    ensures RemovesOwnServices(r, db', repo)
  {
    DeclaredConstraints(r);
    ForeignSchemasExist(r, repo);
    hide WellFormed, ForeignSchema, Among;
    AllFieldsOwned(r);
  }

  lemma AllFieldsOwned(r: Tables)
    requires FieldsOwned(r.fields, r.schemas)
    ensures FieldsOf(r.fields, r.schemas) == r.fields
  {
  }

  // With closed findings and no override pending, a scan of one repo that returns changes no service,
  // connection, schema or field of another, except that connections into a service it removes go.
  lemma ScansLeaveOtherReposAlone(db: Tables, s: Scan, db': Tables)
    requires Settled(db) && NoPending(db) && Closed(s.findings) && Returns(db, s, db')
    ensures Isolated(db, db', s.repo)
  {
    var d1, d2, st, d4 := StagesOfAScan(db, s);
    FindingsLeaveOthersUntouched(db, s, d1, d2, st, d4);
    var n, r := db.nextVersion, WriteTx(db, s).value;
    EndScanRemovesOwnServices(d4, s.repo, n, s.now);
    RemovalIsolates(d4, r, s.repo);
    UntouchedThenIsolated(db, d4, r, s.repo);
    WriteTxSettles(db, s);
    hide Stages, Isolated, Untouched, WriteTx, RemovesOwnServices;
    if s.mode.Incremental? {
      CleanupOfAScan(db, s, db');
      ReturnedTablesAreSettled(db, s, db');
      FileCleanupRemovesOwnServices(r, db', s.repo, s.deleted);
      RemovalIsolates(r, db', s.repo);
      assert forall x :: x in db'.services ==> x in r.services;
      IsolatedTwice(db, r, db', s.repo);
    }
  }

  lemma ReturnedTablesAreSettled(db: Tables, s: Scan, db': Tables)
    requires Settled(db) && Returns(db, s, db')
    ensures Settled(db')
  {
    var r := WriteTx(db, s).value;
    WriteTxSettles(db, s);
    var budget: nat :| AfterCleanup(r, s, budget).ok && AfterCleanup(r, s, budget).db == db';
    CleanupStaysSettled(r, s, budget);
  }
}
