// Every statement and every phase of the pipeline keeps the constraints the schema declares, and
// the service deletions never meet the foreign key that guards them.
module ScanIntegrity {
  import opened Common
  import opened ScanTables
  import opened ScanPipeline

  // ---------------------------------------------------------------- single statements

  lemma DeleteConnectionsKeepsIntegrity(db: Tables, ids: set<nat>)
    requires WellFormed(db) && DeleteConnections(db, ids).Done?
    ensures WellFormed(DeleteConnections(db, ids).value)
  {
  }

  lemma DeleteServicesKeepsIntegrity(db: Tables, ids: set<nat>)
    requires WellFormed(db) && DeleteServices(db, ids).Done?
    ensures WellFormed(DeleteServices(db, ids).value)
  {
    var after := DeleteServices(db, ids).value;
    forall c | c in after.connections
      ensures after.connections[c].source in after.services && after.connections[c].target in after.services
    {
      assert !Touches(db.connections[c], ids);
    }
  }

  lemma DeclaredConstraints(db: Tables)
    requires WellFormed(db)
    ensures NoDangling(db.connections, db.services) && SchemasOwned(db.schemas, db.connections)
    ensures FieldsOwned(db.fields, db.schemas) && IdsBelow(db.connections, db.nextConnection)
  {
  }

  // Connections go before their services, so only a schema can stop the pair of deletes.
  lemma EvictThrowsIffSchemas(db: Tables, services: set<nat>)
    ensures Evict(db, services).Thrown? <==> HasSchema(db.schemas, Touching(db.connections, services))
    ensures Evict(db, services).Done? ==>
              Evict(db, services).value == db.(connections := db.connections - Touching(db.connections, services),
                                               services := db.services - services)
  {
  }

  lemma EvictKeepsIntegrity(db: Tables, services: set<nat>)
    requires WellFormed(db) && Evict(db, services).Done?
    ensures WellFormed(Evict(db, services).value)
  {
    var ids := Touching(db.connections, services);
    DeleteConnectionsKeepsIntegrity(db, ids);
    DeleteServicesKeepsIntegrity(DeleteConnections(db, ids).value, services);
  }

  lemma UpsertServiceKeepsIntegrity(db: Tables, row: Service)
    requires WellFormed(db) && row.repo in db.repos
    ensures WellFormed(UpsertService(db, row))
  {
    var existing := FindService(db.services, db.nextService, row.repo, row.name);
    var after := UpsertService(db, row);
    var id := if existing.Some? then existing.value else db.nextService;
    forall a | a in db.services && db.services[a].repo == row.repo && db.services[a].name == row.name
      ensures a == id
    {
      assert IsService(db.services, a, row.repo, row.name);
    }
    assert UniqueNames(after.services);
    assert NoDangling(after.connections, after.services);
  }

  lemma UpsertConnectionKeepsIntegrity(db: Tables, row: Connection)
    requires WellFormed(db) && UpsertConnection(db, row).Done?
    ensures WellFormed(UpsertConnection(db, row).value)
  {
    var after := UpsertConnection(db, row).value;
    var replaced := Replaced(db.connections, KeyOf(row));
    forall s | s in after.schemas ensures after.schemas[s].connection in after.connections {
      assert db.schemas[s].connection !in replaced;
    }
    forall a, b | a in after.connections && b in after.connections
                  && KeyOf(after.connections[a]) == KeyOf(after.connections[b]) && Concrete(KeyOf(after.connections[a]))
      ensures a == b
    {
      assert b in db.connections && KeyOf(db.connections[b]) == KeyOf(row) && Concrete(KeyOf(row)) ==> b in replaced;
      assert a in db.connections && KeyOf(db.connections[a]) == KeyOf(row) && Concrete(KeyOf(row)) ==> a in replaced;
    }
  }

  lemma InsertSchemaKeepsIntegrity(db: Tables, row: Schema)
    requires WellFormed(db) && InsertSchema(db, row).Done?
    ensures WellFormed(InsertSchema(db, row).value)
  {
  }

  lemma InsertFieldKeepsIntegrity(db: Tables, row: Field)
    requires WellFormed(db) && InsertField(db, row).Done?
    ensures WellFormed(InsertField(db, row).value)
    ensures db.nextField !in db.fields
  {
  }

  // Rewriting columns outside the keys keeps the constraints on services and connections.
  lemma SameKeysKeepIntegrity(db: Tables, services: map<nat, Service>, connections: map<nat, Connection>)
    requires WellFormed(db)
    requires services.Keys == db.services.Keys && connections.Keys == db.connections.Keys
    requires forall s :: s in services ==>
               services[s].repo == db.services[s].repo && services[s].name == db.services[s].name
    requires forall c :: c in connections ==> KeyOf(connections[c]) == KeyOf(db.connections[c])
    ensures WellFormed(db.(services := services, connections := connections))
  {
    forall c | c in connections ensures connections[c].source in services && connections[c].target in services {
      assert KeyOf(connections[c]) == KeyOf(db.connections[c]);
    }
  }

  lemma RestampKeepsKeys(db: Tables, repo: nat, previous: nat, version: nat)
    ensures var services := RestampServices(db.services, repo, previous, version);
            var connections := RestampConnections(db.connections, services, repo, previous, version);
            && services.Keys == db.services.Keys && connections.Keys == db.connections.Keys
            && (forall s :: s in services ==>
                  services[s].repo == db.services[s].repo && services[s].name == db.services[s].name)
            && (forall c :: c in connections ==> KeyOf(connections[c]) == KeyOf(db.connections[c]))
  {
  }

  lemma RestampKeepsIntegrity(db: Tables, repo: nat, version: nat)
    requires WellFormed(db)
    ensures WellFormed(Restamp(db, repo, version))
  {
    hide LatestCompleted, RestampServices, RestampConnections, WellFormed;
    var latest := LatestCompleted(db.versions, db.nextVersion, repo);
    if latest.Some? {
      var services := RestampServices(db.services, repo, latest.value, version);
      var connections := RestampConnections(db.connections, services, repo, latest.value, version);
      RestampKeepsKeys(db, repo, latest.value, version);
      SameKeysKeepIntegrity(db, services, connections);
    }
  }

  lemma DeleteUnstampedSchemasKeepsIntegrity(db: Tables, repo: nat, version: nat)
    requires WellFormed(db)
    ensures WellFormed(DeleteUnstampedSchemas(db, repo, version))
  {
  }

  // A schema whose connection is not there.
  ghost predicate IsOrphan(db: Tables, x: nat) {
    x in db.schemas && db.schemas[x].connection !in db.connections
  }

  // In any tables: the clean-up takes away the fields without a schema, and the schemas without a connection, these all
  // or, when a field still has one of them, none.
  lemma OrphansGo(db: Tables)
    ensures var after := DeleteOrphans(db);
            && after == db.(fields := after.fields, schemas := after.schemas)
            && (forall f :: f in after.fields <==> f in db.fields && db.fields[f].schema in db.schemas)
            && (forall f :: f in after.fields ==> after.fields[f] == db.fields[f])
            && (forall x :: x in after.schemas ==> x in db.schemas && after.schemas[x] == db.schemas[x])
            && (if exists f :: f in db.fields && IsOrphan(db, db.fields[f].schema) then after.schemas == db.schemas
                else forall x :: x in after.schemas <==> x in db.schemas && !IsOrphan(db, x))
  {
    var fields, orphans := FieldsOf(db.fields, db.schemas), Orphans(db.schemas, db.connections);
    forall x ensures x in orphans <==> IsOrphan(db, x) {
    }
    if f :| f in db.fields && IsOrphan(db, db.fields[f].schema) {
      assert f in fields && fields[f].schema in orphans;
    }
    hide Orphans;
  }

  // Under the foreign keys there is never an orphan to delete.
  lemma NoOrphans(db: Tables)
    requires WellFormed(db)
    ensures DeleteOrphans(db) == db
  {
    assert FieldsOf(db.fields, db.schemas) == db.fields;
    assert Orphans(db.schemas, db.connections) == {};
    assert db.schemas - {} == db.schemas;
  }

  // ---------------------------------------------------------------- overrides

  lemma RenameKeepsIntegrity(db: Tables, id: nat, newName: Option<string>)
    requires WellFormed(db) && RenameService(db, id, newName).Done?
    ensures WellFormed(RenameService(db, id, newName).value)
  {
    var after := RenameService(db, id, newName).value;
    if after != db {
      forall a | a in db.services && a != id && db.services[a].repo == db.services[id].repo
        ensures db.services[a].name != after.services[id].name
      {
        assert !IsService(db.services, a, db.services[id].repo, after.services[id].name);
      }
    }
  }

  lemma RewrittenRowKeepsKeysUnique(connections: map<nat, Connection>, id: nat, row: Connection)
    requires UniqueKeys(connections) && id in connections
    requires Replaced(connections, KeyOf(row)) - {id} == {}
    ensures UniqueKeys(connections[id := row])
  {
    forall a | a in connections && a != id && Concrete(KeyOf(row)) ensures KeyOf(connections[a]) != KeyOf(row) {
      assert a !in Replaced(connections, KeyOf(row)) - {id};
    }
  }

  lemma UpdateConnectionKeepsIntegrity(db: Tables, id: nat, p: Payload)
    requires WellFormed(db) && p.Json? && UpdateConnection(db, id, p).Done?
    ensures WellFormed(UpdateConnection(db, id, p).value)
  {
    var after := UpdateConnection(db, id, p).value;
    if after != db {
      var row := Updated(db.connections[id], p);
      RewrittenRowKeepsKeysUnique(db.connections, id, row);
      assert after == db.(connections := db.connections[id := row]);
    }
  }

  lemma SetServiceBasePathKeepsIntegrity(db: Tables, id: nat, basePath: Option<string>)
    requires WellFormed(db)
    ensures WellFormed(SetServiceBasePath(db, id, basePath))
  {
  }

  // An override touches services and connections only.
  ghost predicate ServicesAndConnectionsOnly(db: Tables, after: Tables) {
    after == db.(services := after.services, connections := after.connections)
  }

  lemma ApplyOneKeepsIntegrity(db: Tables, o: Override)
    requires WellFormed(db) && ApplyOne(db, o).Done?
    ensures WellFormed(ApplyOne(db, o).value)
    ensures ServicesAndConnectionsOnly(db, ApplyOne(db, o).value)
  {
    if o.kind.OnConnection? && o.action.Delete? {
      DeleteConnectionsKeepsIntegrity(db, {o.target});
    } else if o.kind.OnService? && o.action.Delete? {
      EvictKeepsIntegrity(db, {o.target});
      EvictThrowsIffSchemas(db, {o.target});
    } else if o.payload.Json? && o.kind.OnService? && o.action.Rename? {
      RenameKeepsIntegrity(db, o.target, o.payload.newName);
    } else if o.payload.Json? && o.kind.OnService? && o.action.SetBasePath? {
      SetServiceBasePathKeepsIntegrity(db, o.target, o.payload.basePath);
    } else if o.payload.Json? && o.kind.OnConnection? && o.action.Update? {
      UpdateConnectionKeepsIntegrity(db, o.target, o.payload);
    }
  }

  ghost predicate OverridePassFrame(db: Tables, after: Tables) {
    after == db.(services := after.services, connections := after.connections, overrides := after.overrides)
  }

  lemma OverridePassFrameIsTransitive(a: Tables, b: Tables, c: Tables)
    requires OverridePassFrame(a, b) && OverridePassFrame(b, c)
    ensures OverridePassFrame(a, c)
  {
  }

  // However an override's statements are cut short, they keep the constraints: connections go before their services.
  lemma MutateKeepsIntegrity(db: Tables, o: Override, fault: Option<nat>)
    requires WellFormed(db)
    ensures WellFormed(Mutate(db, o, fault).db)
    ensures ServicesAndConnectionsOnly(db, Mutate(db, o, fault).db)
  {
    hide WellFormed;
    if o.kind.OnService? && o.action.Delete? {
      var touching := Touching(db.connections, {o.target});
      if DeleteConnections(db, touching).Done? {
        DeleteConnectionsKeepsIntegrity(db, touching);
        var db1 := DeleteConnections(db, touching).value;
        if DeleteServices(db1, {o.target}).Done? {
          DeleteServicesKeepsIntegrity(db1, {o.target});
        }
      }
    } else if ApplyOne(db, o).Done? {
      ApplyOneKeepsIntegrity(db, o);
      hide ApplyOne;
    }
  }

  lemma ApplyOverrideKeepsIntegrity(p: Pass, i: nat, version: nat, fault: Option<nat>)
    requires WellFormed(p.db) && version in p.db.versions && i < |p.db.overrides|
    ensures WellFormed(ApplyOverride(p, i, version, fault).db)
    ensures OverridePassFrame(p.db, ApplyOverride(p, i, version, fault).db)
    ensures ApplyOverride(p, i, version, fault).db.overrides in
              {p.db.overrides, p.db.overrides[i := p.db.overrides[i].(stamp := Some(version))]}
  {
    MutateKeepsIntegrity(p.db, p.db.overrides[i], fault);
    hide Mutate;
  }

  lemma {:induction false} ApplyFirstKeepsIntegrity(db: Tables, k: nat, version: nat, faults: map<nat, nat>)
    requires WellFormed(db) && version in db.versions && k <= |db.overrides|
    ensures WellFormed(ApplyFirst(db, k, version, faults).db)
    ensures OverridePassFrame(db, ApplyFirst(db, k, version, faults).db)
  {
    hide ApplyOverride, WellFormed, FaultOf;
    if k > 0 {
      ApplyFirstKeepsIntegrity(db, k - 1, version, faults);
      ApplyNext(db, k, version, faults);
      hide ApplyFirst;
      var p := ApplyFirst(db, k - 1, version, faults);
      if db.overrides[k - 1].stamp.None? {
        ApplyOverrideKeepsIntegrity(p, k - 1, version, FaultOf(faults, k - 1));
        hide OverridePassFrame;
        OverridePassFrameIsTransitive(db, p.db, ApplyOverride(p, k - 1, version, FaultOf(faults, k - 1)).db);
      }
    }
  }

  // ---------------------------------------------------------------- persistFindings

  lemma {:induction false} PersistServicesKeepsIntegrity(db: Tables, repo: nat, fs: seq<ServiceFinding>, version: nat)
    requires WellFormed(db) && repo in db.repos
    ensures WellFormed(PersistServices(db, repo, fs, version))
    ensures var after := PersistServices(db, repo, fs, version);
            after == db.(services := after.services, nextService := after.nextService)
  {
    if fs != [] {
      var last := |fs| - 1;
      PersistServicesKeepsIntegrity(db, repo, fs[..last], version);
      UpsertServiceKeepsIntegrity(PersistServices(db, repo, fs[..last], version), ServiceRow(repo, fs[last], version));
    }
  }

  lemma {:induction false} PersistConnectionsKeepsIntegrity(db: Tables, repo: nat, cs: seq<ConnectionFinding>,
                                                            rejected: set<nat>, version: nat)
    requires WellFormed(db) && PersistConnections(db, repo, cs, rejected, version).Done?
    ensures var st := PersistConnections(db, repo, cs, rejected, version).value;
            && WellFormed(st.db)
            && st.db == db.(connections := st.db.connections, nextConnection := st.db.nextConnection)
            && db.nextConnection <= st.db.nextConnection
  {
    if cs != [] {
      var last := |cs| - 1;
      PersistConnectionsKeepsIntegrity(db, repo, cs[..last], rejected, version);
      var st := PersistConnections(db, repo, cs[..last], rejected, version).value;
      var source, target := Resolve(st.db, repo, cs[last].source), Resolve(st.db, repo, cs[last].target);
      if source.Some? && target.Some? && last !in rejected {
        UpsertConnectionKeepsIntegrity(st.db, ConnectionRow(st.db, source.value, target.value, cs[last], version));
      }
    }
  }

  ghost predicate OnlyAddsFields(db: Tables, after: Tables, schema: nat) {
    && after == db.(fields := after.fields, nextField := after.nextField)
    && db.nextField <= after.nextField
    && (forall f :: f in db.fields ==> f in after.fields && after.fields[f] == db.fields[f])
    && (forall f :: f in after.fields && f !in db.fields ==> after.fields[f].schema == schema)
  }

  lemma {:induction false} PersistFieldsKeepsIntegrity(db: Tables, schema: nat, fs: seq<FieldFinding>)
    requires WellFormed(db) && PersistFields(db, schema, fs).Done?
    ensures WellFormed(PersistFields(db, schema, fs).value)
    ensures OnlyAddsFields(db, PersistFields(db, schema, fs).value, schema)
  {
    hide WellFormed;
    if fs != [] {
      PersistFieldsKeepsIntegrity(db, schema, fs[..|fs| - 1]);
      var db1 := PersistFields(db, schema, fs[..|fs| - 1]).value;
      var row := FieldRow(schema, fs[|fs| - 1]);
      InsertFieldKeepsIntegrity(db1, row);
      assert OnlyAddsFields(db1, InsertField(db1, row).value, schema);
    }
  }

  // Schemas and fields are only added, each new schema to a connection this scan stored.
  ghost predicate OnlyAddsSchemas(db: Tables, after: Tables, ids: map<nat, nat>) {
    && after == db.(schemas := after.schemas, nextSchema := after.nextSchema, fields := after.fields,
                    nextField := after.nextField)
    && db.nextSchema <= after.nextSchema
    && (forall s :: s in db.schemas ==> s in after.schemas && after.schemas[s] == db.schemas[s])
    && (forall s :: s in after.schemas && s !in db.schemas ==> after.schemas[s].connection in ids.Values)
    && (forall f :: f in db.fields ==> f in after.fields && after.fields[f] == db.fields[f])
    && (forall f | f in after.fields && f !in db.fields
          :: after.fields[f].schema in after.schemas && after.fields[f].schema !in db.schemas)
  }

  lemma PersistSchemaOnlyAdds(db: Tables, ids: map<nat, nat>, s: SchemaFinding)
    requires WellFormed(db) && PersistSchema(db, ids, s).Done?
    ensures WellFormed(PersistSchema(db, ids, s).value)
    ensures OnlyAddsSchemas(db, PersistSchema(db, ids, s).value, ids)
  {
    hide UniqueNames, NoDangling, UniqueKeys, SchemasOwned, FieldsOwned, ServicesRefer, StampsRefer, PersistFields;
    if s.connectionIndex.Some? && s.connectionIndex.value in ids {
      var row := Schema(ids[s.connectionIndex.value], s.role, s.name, OrNull(s.file));
      InsertSchemaKeepsIntegrity(db, row);
      var db1 := InsertSchema(db, row).value;
      PersistFieldsKeepsIntegrity(db1, db.nextSchema, s.fields);
      assert row.connection in ids.Values;
    }
  }

  lemma {:induction false} PersistSchemasOnlyAdds(db: Tables, ids: map<nat, nat>, ss: seq<SchemaFinding>)
    requires WellFormed(db) && PersistSchemas(db, ids, ss).Done?
    ensures WellFormed(PersistSchemas(db, ids, ss).value)
    ensures OnlyAddsSchemas(db, PersistSchemas(db, ids, ss).value, ids)
  {
    if ss != [] {
      PersistSchemasOnlyAdds(db, ids, ss[..|ss| - 1]);
      PersistSchemaOnlyAdds(PersistSchemas(db, ids, ss[..|ss| - 1]).value, ids, ss[|ss| - 1]);
    }
  }

  // ---------------------------------------------------------------- endScan in closed form

  function Current(services: map<nat, Service>, repo: nat, version: nat): set<nat> {
    set s | s in services && (services[s].repo == repo ==> services[s].version == Some(version))
  }

  function Among(connections: map<nat, Connection>, services: set<nat>): map<nat, Connection> {
    map c | c in connections && connections[c].source in services && connections[c].target in services
      :: connections[c]
  }

  // A schema survives the cleanup when its connection belongs to another repo or was stamped by this scan.
  predicate SurvivesCleanup(db: Tables, s: Schema, repo: nat, version: nat) {
    s.connection in db.connections
    && (Owned(db, db.connections[s.connection], repo) ==> db.connections[s.connection].version == Some(version))
  }

  function KeptSchemas(db: Tables, repo: nat, version: nat): map<nat, Schema> {
    map s | s in db.schemas && SurvivesCleanup(db, db.schemas[s], repo, version) :: db.schemas[s]
  }

  function EndScanResult(db: Tables, repo: nat, version: nat, now: int): Tables
    requires version in db.versions
  {
    var kept := Current(db.services, repo, version);
    var schemas := KeptSchemas(db, repo, version);
    db.(services := map s | s in kept :: db.services[s],
        connections := Among(db.connections, kept),
        schemas := schemas,
        fields := FieldsOf(db.fields, schemas),
        versions := db.versions[version := db.versions[version].(completedAt := Some(now))])
  }

  // The schemas that stop endScan: the cleanup keeps them and their connection must go.
  ghost predicate Blocks(db: Tables, s: Schema, repo: nat, version: nat) {
    SurvivesCleanup(db, s, repo, version)
    && !(db.connections[s.connection].source in Current(db.services, repo, version)
         && db.connections[s.connection].target in Current(db.services, repo, version))
  }

  lemma UnstampedSchemasAreNotKept(db: Tables, repo: nat, version: nat)
    requires WellFormed(db)
    ensures DeleteUnstampedSchemas(db, repo, version).schemas == KeptSchemas(db, repo, version)
  {
    forall s | s in db.schemas
      ensures db.schemas[s].connection !in Unstamped(db, repo, version)
              <==> SurvivesCleanup(db, db.schemas[s], repo, version)
    {
    }
  }

  lemma CleanupBeforeEvicting(db: Tables, repo: nat, version: nat)
    requires WellFormed(db)
    ensures var schemas := KeptSchemas(db, repo, version);
            DeleteUnstampedSchemas(db, repo, version) == db.(schemas := schemas, fields := FieldsOf(db.fields, schemas))
  {
    hide KeptSchemas, Unstamped, WellFormed;
    UnstampedSchemasAreNotKept(db, repo, version);
    DeclaredConstraints(db);
    var after := DeleteUnstampedSchemas(db, repo, version);
    assert after.fields == FieldsOf(db.fields, after.schemas);
  }

  // Evicting two groups of services, one after the other.
  lemma EvictTwice(db: Tables, first: set<nat>, second: set<nat>)
    requires Evict(db, first).Done? && Evict(Evict(db, first).value, second).Done?
    requires NoDangling(db.connections, db.services)
    ensures var kept := db.services.Keys - first - second;
            Evict(Evict(db, first).value, second).value
            == db.(services := map s | s in kept :: db.services[s], connections := Among(db.connections, kept))
  {
    EvictThrowsIffSchemas(db, first);
    var db1 := Evict(db, first).value;
    EvictThrowsIffSchemas(db1, second);
    var db2 := Evict(db1, second).value;
    var kept := db.services.Keys - first - second;
    assert db2.services == map s | s in kept :: db.services[s];
    forall c | c in db.connections
      ensures c in db2.connections <==> db.connections[c].source in kept && db.connections[c].target in kept
    {
    }
    assert db2.connections == Among(db.connections, kept);
  }

  ghost predicate Unblocked(db: Tables, repo: nat, version: nat) {
    forall s :: s in db.schemas ==> !Blocks(db, db.schemas[s], repo, version)
  }

  // What endScan's deletes do when none of them throws.
  lemma EndScanEvicts(db: Tables, repo: nat, version: nat)
    requires WellFormed(db)
    requires var cleaned := DeleteUnstampedSchemas(db, repo, version);
             var first := Evict(cleaned, Stale(cleaned.services, repo, version));
             first.Done? && Evict(first.value, Unversioned(first.value.services, repo)).Done?
    ensures var cleaned := DeleteUnstampedSchemas(db, repo, version);
            var db1 := Evict(cleaned, Stale(cleaned.services, repo, version)).value;
            var db2 := Evict(db1, Unversioned(db1.services, repo)).value;
            var kept := Current(db.services, repo, version);
            && WellFormed(db2)
            && db2 == cleaned.(services := map s | s in kept :: db.services[s],
                               connections := Among(db.connections, kept))
  {
    hide WellFormed, KeptSchemas, Among;
    var cleaned := DeleteUnstampedSchemas(db, repo, version);
    DeleteUnstampedSchemasKeepsIntegrity(db, repo, version);
    DeclaredConstraints(db);
    var stale := Stale(db.services, repo, version);
    EvictKeepsIntegrity(cleaned, stale);
    EvictThrowsIffSchemas(cleaned, stale);
    var db1 := Evict(cleaned, stale).value;
    hide DeleteUnstampedSchemas, Evict;
    var unversioned := Unversioned(db1.services, repo);
    EvictKeepsIntegrity(db1, unversioned);
    EvictTwice(cleaned, stale, unversioned);
    assert db.services.Keys - stale - unversioned == Current(db.services, repo, version);
  }

  // On normal return endScan keeps exactly the current services, the connections among them, and the
  // schemas and fields of what is left.
  lemma EndScanClosedForm(db: Tables, repo: nat, version: nat, now: int)
    requires WellFormed(db) && version in db.versions
    requires EndScan(db, repo, version, now).Done?
    ensures EndScan(db, repo, version, now).value == EndScanResult(db, repo, version, now)
    ensures WellFormed(EndScan(db, repo, version, now).value)
    ensures Unblocked(db, repo, version)
  {
    hide Evict, DeleteOrphans, DeleteUnstampedSchemas, KeptSchemas, Stale, Unversioned, FieldsOf, SurvivesCleanup,
         Current, WellFormed;
    EndScanEvicts(db, repo, version);
    CleanupBeforeEvicting(db, repo, version);
    var cleaned := DeleteUnstampedSchemas(db, repo, version);
    var db1 := Evict(cleaned, Stale(cleaned.services, repo, version)).value;
    var db2 := Evict(db1, Unversioned(db1.services, repo)).value;
    NoOrphans(db2);
    CompletingKeepsIntegrity(db2, version, now);
    KeptSchemasSurvive(db, repo, version);
    DeclaredConstraints(db2);
    forall s | s in db.schemas ensures !Blocks(db, db.schemas[s], repo, version) {
      if SurvivesCleanup(db, db.schemas[s], repo, version) {
        assert s in db2.schemas && db2.schemas[s].connection in db2.connections;
      }
    }
  }

  lemma CompletingKeepsIntegrity(db: Tables, version: nat, now: int)
    requires WellFormed(db) && version in db.versions
    ensures WellFormed(db.(versions := db.versions[version := db.versions[version].(completedAt := Some(now))]))
  {
  }

  lemma KeptSchemasSurvive(db: Tables, repo: nat, version: nat)
    ensures forall s :: s in KeptSchemas(db, repo, version)
                        <==> s in db.schemas && SurvivesCleanup(db, db.schemas[s], repo, version)
    ensures forall s :: s in KeptSchemas(db, repo, version) ==> KeptSchemas(db, repo, version)[s] == db.schemas[s]
  {
  }

  lemma SchemaOnEvictedBlocks(db: Tables, s: nat, evicted: set<nat>, repo: nat, version: nat)
    requires s in db.schemas && SurvivesCleanup(db, db.schemas[s], repo, version)
    requires evicted !! Current(db.services, repo, version)
    requires Touches(db.connections[db.schemas[s].connection], evicted)
    ensures !Unblocked(db, repo, version)
  {
    assert Blocks(db, db.schemas[s], repo, version);
  }

  // endScan throws exactly when a schema blocks a connection delete: a schema of another repo's
  // connection, or of one stamped by this scan, into or out of a service that must go.
  lemma EndScanThrowsIffBlocked(db: Tables, repo: nat, version: nat, now: int)
    requires WellFormed(db) && version in db.versions
    ensures EndScan(db, repo, version, now).Thrown? <==> !Unblocked(db, repo, version)
  {
    if EndScan(db, repo, version, now).Done? {
      EndScanClosedForm(db, repo, version, now);
    } else {
      var cleaned := DeleteUnstampedSchemas(db, repo, version);
      CleanupBeforeEvicting(db, repo, version);
      var stale := Stale(db.services, repo, version);
      EvictThrowsIffSchemas(cleaned, stale);
      if Evict(cleaned, stale).Thrown? {
        var s :| s in cleaned.schemas && cleaned.schemas[s].connection in Touching(cleaned.connections, stale);
        SchemaOnEvictedBlocks(db, s, stale, repo, version);
      } else {
        var db1 := Evict(cleaned, stale).value;
        var unversioned := Unversioned(db1.services, repo);
        EvictThrowsIffSchemas(db1, unversioned);
        var s :| s in db1.schemas && db1.schemas[s].connection in Touching(db1.connections, unversioned);
        SchemaOnEvictedBlocks(db, s, unversioned, repo, version);
      }
    }
  }

  // ---------------------------------------------------------------- deleted-file cleanup

  lemma {:induction false} DeleteConnectionsOfKeepsIntegrity(p: Progress, ids: seq<nat>)
    requires WellFormed(p.db)
    ensures var q := DeleteConnectionsOf(p, ids);
            WellFormed(q.db) && q.db == p.db.(connections := q.db.connections)
  {
    if ids != [] {
      DeleteConnectionsOfKeepsIntegrity(p, ids[..|ids| - 1]);
      var q := DeleteConnectionsOf(p, ids[..|ids| - 1]);
      var gone := Touching(q.db.connections, {ids[|ids| - 1]});
      if DeleteConnections(q.db, gone).Done? {
        DeleteConnectionsKeepsIntegrity(q.db, gone);
      }
    }
  }

  lemma DeleteFileKeepsIntegrity(p: Progress, repo: nat, file: string)
    requires WellFormed(p.db)
    ensures var q := DeleteFile(p, repo, file);
            WellFormed(q.db) && q.db == p.db.(connections := q.db.connections, services := q.db.services)
  {
    hide WellFormed, DeleteConnectionsOf;
    var ids := ServicesIn(p.db.services, p.db.nextService, repo, file);
    DeleteConnectionsOfKeepsIntegrity(p, ids);
    var q := DeleteConnectionsOf(p, ids);
    var gone := set id | id in ids;
    if DeleteServices(q.db, gone).Done? {
      DeleteServicesKeepsIntegrity(q.db, gone);
    }
  }

  lemma {:induction false} DeleteFilesKeepsIntegrity(p: Progress, repo: nat, files: seq<string>)
    requires WellFormed(p.db)
    ensures var q := DeleteFiles(p, repo, files);
            WellFormed(q.db) && q.db == p.db.(connections := q.db.connections, services := q.db.services)
  {
    if files != [] {
      DeleteFilesKeepsIntegrity(p, repo, files[..|files| - 1]);
      DeleteFileKeepsIntegrity(DeleteFiles(p, repo, files[..|files| - 1]), repo, files[|files| - 1]);
    }
  }
}
