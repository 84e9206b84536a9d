// When a scan commits, and when it returns, for any findings: in the tables before it.
module ScanReturns {
  import opened Common
  import opened ScanTables
  import opened ScanPipeline
  import opened ScanIntegrity
  import opened ScanRuns
  import opened ScanEffects
  import opened ScanTheorems
  import opened ScanIsolation
  import opened ScanRescan
  import opened ScanFindings
  import opened ScanCleanup
  import opened ScanCommits
  import opened ScanKept
  import opened ScanNames

  // ---------------------------------------------------------------- the services a scan takes away

  // The name is an own service's that a full scan does not find again.
  ghost predicate NameGoes(db: Tables, s: Scan, name: string) {
    s.mode.Full? && !Named(s.findings.services, name) && HasService(db.services, s.repo, name)
  }

  // Service x is the repo's, and the file it is defined in, by its last finding if there is one, was deleted.
  ghost predicate ServiceLeaves(db: Tables, s: Scan, x: nat) {
    x in db.services
    && if IsNamedHere(db.services[x], s.repo, s.findings.services) then FoundInDeleted(s, db.services[x].name)
       else Leaves(s, db.services[x])
  }

  // The same of the service a finding's name resolves to: the repo's own one, else it stays.
  ghost predicate NameLeaves(db: Tables, s: Scan, name: string) {
    if Named(s.findings.services, name) then FoundInDeleted(s, name)
    else exists x :: IsService(db.services, x, s.repo, name) && Leaves(s, db.services[x])
  }

  // Evidenced finding i resolves, and schema finding q belongs to it.
  ghost predicate Declared(db: Tables, s: Scan, i: nat, q: nat) {
    && i < |s.findings.connections| && i !in s.findings.rejected
    && Known(db, s, s.findings.connections[i].source) && Known(db, s, s.findings.connections[i].target)
    && q < |s.findings.schemas| && s.findings.schemas[q].connectionIndex == Some(i)
  }

  lemma LeavesWhenWritten(db: Tables, s: Scan, d2: Tables, x: nat)
    requires ServicesAre(db, s, d2) && x in d2.services
    ensures Leaves(s, d2.services[x])
            <==> if IsNamedHere(d2.services[x], s.repo, s.findings.services) then FoundInDeleted(s, d2.services[x].name)
                 else x in db.services && Leaves(s, db.services[x])
  {
    hide WellFormed, LastNamed;
  }

  lemma OldServiceLeaves(db: Tables, s: Scan, d2: Tables, x: nat)
    requires ServicesAre(db, s, d2) && x in db.services
    ensures x in d2.services && (Leaves(s, d2.services[x]) <==> ServiceLeaves(db, s, x))
  {
    OldNames(db.services, d2.services, s, db.nextVersion, x);
    LeavesWhenWritten(db, s, d2, x);
    hide ServicesAre, LastNamed, Leaves, FoundInDeleted;
  }

  lemma OnlyOwnLeave(s: Scan, row: Service)
    requires Leaves(s, row)
    ensures row.repo == s.repo
  {
  }

  // Where a finding's name resolves to, seen from the tables before the scan.
  lemma EndpointLeaves(db: Tables, s: Scan, d2: Tables, name: string)
    requires ServicesAre(db, s, d2) && Resolve(d2, s.repo, name).Some?
    ensures Resolve(d2, s.repo, name).value in d2.services
    ensures Leaves(s, d2.services[Resolve(d2, s.repo, name).value]) <==> NameLeaves(db, s, name)
  {
    hide WellFormed, Leaves, FoundInDeleted, Resolve, Written;
    var x := Resolve(d2, s.repo, name).value;
    if Named(s.findings.services, name) {
      NamedAmongNew(db, s, d2, name);
      LeavesWhenWritten(db, s, d2, x);
    } else {
      UnnamedEndpoint(db, s, d2, name);
      LeavesWhenWritten(db, s, d2, x);
      hide ServicesAre;
      if Leaves(s, db.services[x]) {
        OnlyOwnLeave(s, db.services[x]);
        assert IsService(db.services, x, s.repo, name);
      }
    }
  }

  lemma EndpointGoes(db: Tables, s: Scan, d2: Tables, name: string)
    requires Settled(db) && ServicesAre(db, s, d2) && Resolve(d2, s.repo, name).Some? && s.mode.Full?
    ensures Resolve(d2, s.repo, name).value in Current(d2.services, s.repo, db.nextVersion) <==> !NameGoes(db, s, name)
  {
    hide Settled, WellFormed, Resolve, Current, Written;
    var x := Resolve(d2, s.repo, name).value;
    if Named(s.findings.services, name) {
      NamedAmongNew(db, s, d2, name);
      NamedIsCurrent(db, d2, s, x, name);
    } else {
      UnnamedEndpoint(db, s, d2, name);
      hide Named;
      OldVersionsAreOld(db, x);
      GoneServiceGoes(db, d2, s, x);
      GoesByName(db, s, x);
    }
  }

  lemma GoesByName(db: Tables, s: Scan, x: nat)
    requires x in db.services
    ensures Goes(db.services, x, s.repo, s.findings.services)
            <==> db.services[x].repo == s.repo && !Named(s.findings.services, db.services[x].name)
  {
  }

  lemma UnnamedEndpoint(db: Tables, s: Scan, d2: Tables, name: string)
    requires ServicesAre(db, s, d2) && !Named(s.findings.services, name) && Resolve(d2, s.repo, name).Some?
    ensures var x := Resolve(d2, s.repo, name).value;
            && IsNamed(db.services, x, name) && IsNamed(d2.services, x, name)
            && d2.services[x].repo == db.services[x].repo
            && (db.services[x].repo == s.repo <==> HasService(db.services, s.repo, name))
            && (forall y :: IsService(db.services, y, s.repo, name) ==> y == x)
  {
    ResolvesTo(db, s, d2, name);
    UnnamedAmongOld(db, s, d2, name);
    var x := Resolve(d2, s.repo, name).value;
    UnnamedIsOld(db, s, d2, x, name);
    assert UniqueNames(db.services) && IdsBelow(db.services, db.nextService);
    hide WellFormed;
    OldNames(db.services, d2.services, s, db.nextVersion, x);
    hide Written, Named;
    if y :| IsService(db.services, y, s.repo, name) {
      assert FindService(db.services, db.nextService, s.repo, name).Some?;
    }
  }

  // ---------------------------------------------------------------- the schemas once the findings are written

  ghost predicate Wrote(db: Tables, s: Scan, d1: Tables, d2: Tables, st: Stored, d4: Tables) {
    && Settled(db) && s.repo in db.repos && ServicesAre(db, s, d2) && WellFormed(d4) && Stages(db, s, d1, d2, st, d4)
    && PersistConnections(d2, s.repo, s.findings.connections, s.findings.rejected, db.nextVersion) == Done(st)
    && AfterBegin(db, s) == Done(d1) && PersistSchemas(st.db, st.ids, s.findings.schemas) == Done(d4)
  }

  lemma WhatWasWritten(db: Tables, s: Scan) returns (d1: Tables, d2: Tables, st: Stored, d4: Tables)
    requires Settled(db) && NoPending(db) && AfterFindings(db, s).Done?
    ensures Wrote(db, s, d1, d2, st, d4) && db.nextVersion in d4.versions
    ensures AfterFindings(db, s) == Done(d4) && ApplyPendingOverrides(d4, db.nextVersion, s.faults).db == d4
  {
    hide AfterBegin, PersistServices, PersistConnections, PersistSchemas, Settled, NoPending, WellFormed, ServicesAre,
         ApplyFirst;
    d1, d2, st, d4 := StagesOfFindings(db, s);
    BeginningAScan(db, s);
    SettledIsWellFormed(db);
    hide ConnectionsPersisted, AllStored, OnlyAddsSchemas, Carried, ServicesPersisted;
    AreWritten(db, s, d1, d2);
  }

  // An old schema stays on its connection, and outlasts endScan's clean-up if the scan keeps the connection's schemas.
  ghost predicate Outlasts(db: Tables, s: Scan, d4: Tables, x: nat) {
    && x in db.schemas && x in d4.schemas && d4.schemas[x] == db.schemas[x]
    && var c := db.schemas[x].connection;
       && c in db.connections && c in d4.connections && KeyOf(d4.connections[c]) == KeyOf(db.connections[c])
       && db.connections[c].source in db.services && db.connections[c].target in db.services
       && (SurvivesCleanup(d4, d4.schemas[x], s.repo, db.nextVersion) <==> KeepsSchemasOf(db, s, c))
  }

  lemma OldSchemaRow(db: Tables, s: Scan, d1: Tables, d2: Tables, st: Stored, d4: Tables, x: nat)
    requires Wrote(db, s, d1, d2, st, d4) && x in db.schemas
    ensures x in d4.schemas && Outlasts(db, s, d4, x)
  {
    hide WellFormed, Settled, Stages, AfterBegin, PersistConnections, PersistSchemas, MovesToThisScan, Written;
    SettledIsWellFormed(db);
    SchemaConnectionIsOld(db, x);
    DanglingNowhere(db);
    var c := db.schemas[x].connection;
    assert HasSchema(db.schemas, {c});
    hide HasSchema;
    RestampedVersion(db, s, c);
    BeforeTheConnections(db, s, d1, d2, st, d4, c);
    SchemaHoldsItsConnection(d2, s.repo, s.findings.connections, s.findings.rejected, db.nextVersion, c);
    CarriedKey(db, s, d1, d2, st, d4, c);
    OldStampsAreOld(db, c);
    ServicesWhenWritten(db, s, d1, d2, st, d4);
    OldNames(db.services, d2.services, s, db.nextVersion, db.connections[c].source);
  }

  lemma CarriedKey(db: Tables, s: Scan, d1: Tables, d2: Tables, st: Stored, d4: Tables, c: nat)
    requires Stages(db, s, d1, d2, st, d4) && c in db.connections
    ensures c in d2.connections && d2.connections == d1.connections
    ensures KeyOf(d2.connections[c]) == KeyOf(db.connections[c])
  {
    hide ServicesPersisted, ConnectionsPersisted, AllStored, OnlyAddsSchemas;
    CarriedRow(db, d1, s, c);
  }

  // The row that finding i got, and nothing else of the finding's key.
  ghost predicate RowOf(d2: Tables, d4: Tables, s: Scan, n: nat, i: nat, c: nat) {
    && i < |s.findings.connections| && c in d4.connections && d4.connections[c].version == Some(n)
    && KeyIn(d2, s, i) == Some(KeyOf(d4.connections[c]))
  }

  lemma StoredIdsAreNew(db: Tables, s: Scan, d1: Tables, d2: Tables, st: Stored, d4: Tables, i: nat)
    requires Wrote(db, s, d1, d2, st, d4) && i in st.ids && st.ids[i] in st.db.connections
    ensures d4.connections == st.db.connections && d4.connections[st.ids[i]].version == Some(db.nextVersion)
    ensures st.ids[i] !in db.connections
  {
    hide Settled, WellFormed, Stages, PersistConnections, PersistSchemas, AfterBegin, Written;
    StoredRowIsNew(db, s, d1, d2, st, d4, i);
  }

  lemma NewSchemaRow(db: Tables, s: Scan, d1: Tables, d2: Tables, st: Stored, d4: Tables, x: nat)
      returns (i: nat, q: nat)
    requires Wrote(db, s, d1, d2, st, d4) && x in d4.schemas && x !in db.schemas
    ensures Declared(db, s, i, q) && RowOf(d2, d4, s, db.nextVersion, i, d4.schemas[x].connection)
  {
    hide PersistConnections, PersistSchemas, StoredKey, Settled, WellFormed, Stages, AfterBegin, ServicesAre, Known;
    var f := s.findings;
    IdsOfFindings(d2, s.repo, f.connections, f.rejected, db.nextVersion);
    SchemasThrowIffOrphaned(st.db, st.ids, f.schemas);
    SchemasBefore(db, s, d1, d2, st, d4);
    q := NewSchemasAreDeclared(st.db, st.ids, f.schemas, x);
    i := f.schemas[q].connectionIndex.value;
    assert !Orphaned(st.db.connections, st.ids, f.schemas[q]);
    assert RowOfIndex(KeysOf(d2, s.repo, f.connections, f.rejected), st, i);
    hide ReplacedLater;
    StoredIdsAreNew(db, s, d1, d2, st, d4, i);
    KeyByName(db, s, d2, i);
  }

  lemma SchemasBefore(db: Tables, s: Scan, d1: Tables, d2: Tables, st: Stored, d4: Tables)
    requires Stages(db, s, d1, d2, st, d4)
    ensures st.db.schemas == db.schemas && d4.connections == st.db.connections
  {
    hide ServicesPersisted, ConnectionsPersisted, AllStored;
  }

  lemma DeclaredSchemaHasRow(db: Tables, s: Scan, d1: Tables, d2: Tables, st: Stored, d4: Tables, i: nat, q: nat)
      returns (x: nat)
    requires Wrote(db, s, d1, d2, st, d4) && Declared(db, s, i, q)
    ensures x in d4.schemas && RowOf(d2, d4, s, db.nextVersion, i, d4.schemas[x].connection)
  {
    hide Settled, WellFormed, Stages, AfterBegin, ServicesAre, Known;
    var f := s.findings;
    KeyByName(db, s, d2, i);
    IdsOfFindings(d2, s.repo, f.connections, f.rejected, db.nextVersion);
    SchemasThrowIffOrphaned(st.db, st.ids, f.schemas);
    assert KeysOf(d2, s.repo, f.connections, f.rejected)[i] == KeyIn(d2, s, i);
    hide PersistConnections, PersistSchemas, StoredKey, ReplacedLater;
    assert RowOfIndex(KeysOf(d2, s.repo, f.connections, f.rejected), st, i);
    assert !Orphaned(st.db.connections, st.ids, f.schemas[q]);
    AreWellFormed(db, s, d2);
    StoredWellFormed(d2, s.repo, f, db.nextVersion);
    x := DeclaredSchemaIsWritten(st.db, st.ids, f.schemas, q);
    SchemasBefore(db, s, d1, d2, st, d4);
    StoredIdsAreNew(db, s, d1, d2, st, d4, i);
  }

  lemma AreWellFormed(db: Tables, s: Scan, d2: Tables)
    requires ServicesAre(db, s, d2)
    ensures WellFormed(db) && WellFormed(d2) && Written(db.services, d2.services, s, db.nextVersion)
  {
  }

  lemma RowEnds(db: Tables, s: Scan, d2: Tables, d4: Tables, i: nat, c: nat)
    requires Settled(db) && ServicesAre(db, s, d2) && RowOf(d2, d4, s, db.nextVersion, i, c)
    ensures var f, row := s.findings.connections[i], d4.connections[c];
            && row.source in d2.services && row.target in d2.services
            && (Leaves(s, d2.services[row.source]) <==> NameLeaves(db, s, f.source))
            && (Leaves(s, d2.services[row.target]) <==> NameLeaves(db, s, f.target))
            && (s.mode.Full? ==>
                  && (row.source in Current(d2.services, s.repo, db.nextVersion) <==> !NameGoes(db, s, f.source))
                  && (row.target in Current(d2.services, s.repo, db.nextVersion) <==> !NameGoes(db, s, f.target)))
  {
    hide Settled, ServicesAre, Leaves, NameLeaves, NameGoes, Known, Resolve, FindingKey, Current;
    var f := s.findings.connections[i];
    KeyByName(db, s, d2, i);
    EndpointLeaves(db, s, d2, f.source);
    EndpointLeaves(db, s, d2, f.target);
    if s.mode.Full? {
      EndpointGoes(db, s, d2, f.source);
      EndpointGoes(db, s, d2, f.target);
    }
  }

  // ---------------------------------------------------------------- when the transaction throws

  // A schema of a finding whose source or target a full scan does not find again.
  ghost predicate DeclaredIntoGoing(db: Tables, s: Scan, i: nat, q: nat) {
    Declared(db, s, i, q)
    && (NameGoes(db, s, s.findings.connections[i].source) || NameGoes(db, s, s.findings.connections[i].target))
  }

  lemma IncrementalNeverBlocks(db: Tables, s: Scan, d2: Tables, d4: Tables)
    requires s.mode.Incremental? && ServicesAre(db, s, d2) && WellFormed(d4) && d4.services == d2.services
    ensures Unblocked(d4, s.repo, db.nextVersion)
  {
    AreWellFormed(db, s, d2);
    WrittenServicesAreCurrent(db.services, d2.services, s, db.nextVersion);
    DanglingNowhere(d4);
    hide WellFormed, ServicesAre, Current;
  }

  // An old connection into a full scan's endScan: its source stays if another repo owns it.
  lemma OldEnds(db: Tables, s: Scan, d2: Tables, x: nat)
    requires Settled(db) && s.mode.Full? && ServicesAre(db, s, d2) && x in db.services
    ensures x in Current(d2.services, s.repo, db.nextVersion) <==> !Goes(db.services, x, s.repo, s.findings.services)
  {
    hide WellFormed, Settled, Current;
    OldVersionsAreOld(db, x);
    GoneServiceGoes(db, d2, s, x);
  }

  lemma SameEnds(a: Connection, b: Connection)
    requires KeyOf(a) == KeyOf(b)
    ensures a.source == b.source && a.target == b.target
  {
  }

  lemma OldSchemaBlocksIff(db: Tables, s: Scan, d2: Tables, d4: Tables, x: nat)
    requires Settled(db) && s.mode.Full? && ServicesAre(db, s, d2) && d4.services == d2.services
    requires Outlasts(db, s, d4, x)
    ensures Blocks(d4, d4.schemas[x], s.repo, db.nextVersion) <==> SchemaIntoGoing(db, s, x)
  {
    hide Settled, ServicesAre, KeyOf, SurvivesCleanup, Current, Goes;
    var c := db.schemas[x].connection;
    var row := db.connections[c];
    SameEnds(d4.connections[c], row);
    OldEnds(db, s, d2, row.source);
    OldEnds(db, s, d2, row.target);
    OwnedOrStays(db, s, row);
  }

  lemma OwnedOrStays(db: Tables, s: Scan, row: Connection)
    ensures Goes(db.services, row.source, s.repo, s.findings.services) ==> Owned(db, row, s.repo)
  {
  }

  lemma NewSchemaBlocksIff(db: Tables, s: Scan, d2: Tables, d4: Tables, x: nat, i: nat, q: nat)
    requires Settled(db) && s.mode.Full? && ServicesAre(db, s, d2) && d4.services == d2.services
    requires x in d4.schemas && Declared(db, s, i, q)
    requires RowOf(d2, d4, s, db.nextVersion, i, d4.schemas[x].connection)
    ensures Blocks(d4, d4.schemas[x], s.repo, db.nextVersion) <==> DeclaredIntoGoing(db, s, i, q)
  {
    RowEnds(db, s, d2, d4, i, d4.schemas[x].connection);
    hide Settled, ServicesAre, NameGoes, Declared, KeyIn, Current;
  }

  lemma UnblockedIff(db: Tables, s: Scan, d1: Tables, d2: Tables, st: Stored, d4: Tables)
    requires Wrote(db, s, d1, d2, st, d4)
    ensures !Unblocked(d4, s.repo, db.nextVersion)
            <==> (exists x: nat :: SchemaIntoGoing(db, s, x))
                 || (exists i: nat, q: nat :: DeclaredIntoGoing(db, s, i, q))
  {
    hide Settled, ServicesAre, WellFormed, Stages, PersistConnections, AfterBegin, PersistSchemas, Blocks, Outlasts,
         SchemaIntoGoing, DeclaredIntoGoing, RowOf;
    SameServices(db, s, d1, d2, st, d4);
    if s.mode.Incremental? {
      IncrementalNeverBlocks(db, s, d2, d4);
      NothingGoes(db, s);
    } else {
      forall x: nat | x in db.schemas
        ensures x in d4.schemas && (Blocks(d4, d4.schemas[x], s.repo, db.nextVersion) <==> SchemaIntoGoing(db, s, x))
      {
        OldSchemaRow(db, s, d1, d2, st, d4, x);
        OldSchemaBlocksIff(db, s, d2, d4, x);
      }
      if !Unblocked(d4, s.repo, db.nextVersion) {
        var x: nat :| x in d4.schemas && Blocks(d4, d4.schemas[x], s.repo, db.nextVersion);
        if x !in db.schemas {
          var i, q := NewSchemaRow(db, s, d1, d2, st, d4, x);
          NewSchemaBlocksIff(db, s, d2, d4, x, i, q);
        }
      }
      if x: nat :| SchemaIntoGoing(db, s, x) {
        IntoGoingIsASchema(db, s, x);
      }
      if i: nat, q: nat :| DeclaredIntoGoing(db, s, i, q) {
        assert Declared(db, s, i, q) by { IntoGoingIsDeclared(db, s, i, q); }
        var x := DeclaredSchemaHasRow(db, s, d1, d2, st, d4, i, q);
        NewSchemaBlocksIff(db, s, d2, d4, x, i, q);
      }
    }
  }

  lemma SameServices(db: Tables, s: Scan, d1: Tables, d2: Tables, st: Stored, d4: Tables)
    requires Wrote(db, s, d1, d2, st, d4)
    ensures d4.services == d2.services
  {
    hide Settled, ServicesAre, WellFormed, Stages, PersistConnections, AfterBegin, PersistSchemas;
    ServicesWhenWritten(db, s, d1, d2, st, d4);
  }

  lemma NothingGoes(db: Tables, s: Scan)
    requires s.mode.Incremental?
    ensures forall x: nat :: !SchemaIntoGoing(db, s, x)
    ensures forall i: nat, q: nat :: !DeclaredIntoGoing(db, s, i, q)
  {
  }

  lemma IntoGoingIsASchema(db: Tables, s: Scan, x: nat)
    requires SchemaIntoGoing(db, s, x)
    ensures x in db.schemas
  {
  }

  lemma IntoGoingIsDeclared(db: Tables, s: Scan, i: nat, q: nat)
    requires DeclaredIntoGoing(db, s, i, q)
    ensures Declared(db, s, i, q)
  {
  }

  ghost predicate AnyFails(db: Tables, s: Scan) {
    || s.repo !in db.repos
    || (exists j: nat, c: nat :: MeetsSchema(db, s, j, c))
    || (exists i: nat, j: nat, q: nat :: SchemaOnSameCall(db, s, i, j, q))
    || (exists x: nat :: SchemaIntoGoing(db, s, x))
    || (exists i: nat, q: nat :: DeclaredIntoGoing(db, s, i, q))
  }

  // With no override pending, a scan of any findings throws exactly when its repo is unknown; or an evidenced finding
  // meets a connection with a schema; or two are the same call and a schema belongs to the earlier one; or, in a full
  // scan, another repo's old schema, or a schema of the scan itself, hangs on a connection of a service of the repo
  // that is not found again.
  lemma AnyScanThrowsIff(db: Tables, s: Scan)
    requires Settled(db) && NoPending(db)
    ensures WriteTx(db, s).Thrown? <==> AnyFails(db, s)
  {
    hide Settled, NoPending, WellFormed, MeetsSchema, SchemaOnSameCall, SchemaIntoGoing, DeclaredIntoGoing, ApplyFirst,
         BeginScan, PersistFindings, EndScan;
    BeginningAScan(db, s);
    hide AfterBegin;
    if s.repo in db.repos {
      AnyFindingsThrowIff(db, s);
      if AfterFindings(db, s).Done? {
        var d1, d2, st, d4 := WhatWasWritten(db, s);
        UnblockedIff(db, s, d1, d2, st, d4);
        WrittenIsWellFormed(db, s, d1, d2, st, d4);
        hide Wrote;
        EndScanThrowsIffBlocked(d4, s.repo, db.nextVersion, s.now);
      }
    }
  }

  lemma WrittenIsWellFormed(db: Tables, s: Scan, d1: Tables, d2: Tables, st: Stored, d4: Tables)
    requires Wrote(db, s, d1, d2, st, d4)
    ensures WellFormed(d4)
  {
  }

  // ---------------------------------------------------------------- when the call returns

  // A schema that the transaction keeps, on an old connection of a service that the deleted files take away.
  ghost predicate HeldSchemaLeaves(db: Tables, s: Scan, x: nat) {
    && x in db.schemas && db.schemas[x].connection in db.connections
    && KeepsSchemasOf(db, s, db.schemas[x].connection)
    && var row := db.connections[db.schemas[x].connection];
       ServiceLeaves(db, s, row.source) || ServiceLeaves(db, s, row.target)
  }

  // A schema of a finding that joins such a service.
  ghost predicate DeclaredSchemaLeaves(db: Tables, s: Scan, i: nat, q: nat) {
    Declared(db, s, i, q)
    && (NameLeaves(db, s, s.findings.connections[i].source) || NameLeaves(db, s, s.findings.connections[i].target))
  }

  ghost predicate CleanupFails(db: Tables, s: Scan) {
    s.mode.Incremental?
    && ((exists x: nat :: HeldSchemaLeaves(db, s, x)) || (exists i: nat, q: nat :: DeclaredSchemaLeaves(db, s, i, q)))
  }

  // Schema x of d4 outlasts endScan, and hangs on a connection of a service that leaves.
  ghost predicate StopsCleanup(s: Scan, n: nat, d4: Tables, x: nat) {
    && x in d4.schemas && SurvivesCleanup(d4, d4.schemas[x], s.repo, n)
    && var row := d4.connections[d4.schemas[x].connection];
       (row.source in d4.services && Leaves(s, d4.services[row.source]))
       || (row.target in d4.services && Leaves(s, d4.services[row.target]))
  }

  // An incremental transaction keeps the rows that the findings leave.
  lemma IncrementalResult(db: Tables, s: Scan, d2: Tables, d4: Tables)
    requires s.mode.Incremental? && ServicesAre(db, s, d2) && WellFormed(d4) && d4.services == d2.services
    requires db.nextVersion in d4.versions && EndScan(d4, s.repo, db.nextVersion, s.now).Done?
    ensures var after := EndScan(d4, s.repo, db.nextVersion, s.now).value;
            && after.services == d4.services && after.connections == d4.connections
            && after.schemas == KeptSchemas(d4, s.repo, db.nextVersion)
  {
    AreWellFormed(db, s, d2);
    WrittenServicesAreCurrent(db.services, d2.services, s, db.nextVersion);
    hide WellFormed, Written, EndScan, Current, KeptSchemas, Among;
    EndScanClosedForm(d4, s.repo, db.nextVersion, s.now);
    EverythingCurrentStays(d4, s.repo, db.nextVersion, s.now);
  }

  lemma DoomedIff(s: Scan, n: nat, d4: Tables, after: Tables)
    requires after.services == d4.services && after.connections == d4.connections
    requires after.schemas == KeptSchemas(d4, s.repo, n)
    ensures SchemaOnDoomed(after, s.repo, s.deleted) <==> exists x: nat :: StopsCleanup(s, n, d4, x)
  {
    KeptSchemasSurvive(d4, s.repo, n);
    hide KeptSchemas, DefinedIn;
    var touching := Touching(after.connections, Doomed(after.services, s.repo, s.deleted));
    forall x: nat | x in after.schemas ensures after.schemas[x].connection in touching <==> StopsCleanup(s, n, d4, x) {
    }
    hide StopsCleanup, Touching, Doomed;
    if SchemaOnDoomed(after, s.repo, s.deleted) {
      var x: nat :| x in after.schemas && after.schemas[x].connection in touching;
    }
    if x: nat :| StopsCleanup(s, n, d4, x) {
      StopsIsKept(s, n, d4, x);
      assert x in after.schemas && after.schemas[x].connection in touching;
    }
  }

  lemma StopsIsKept(s: Scan, n: nat, d4: Tables, x: nat)
    requires StopsCleanup(s, n, d4, x)
    ensures x in KeptSchemas(d4, s.repo, n)
  {
    hide Leaves;
  }

  lemma OldSchemaStopsIff(db: Tables, s: Scan, d2: Tables, d4: Tables, x: nat)
    requires ServicesAre(db, s, d2) && d4.services == d2.services && Outlasts(db, s, d4, x)
    ensures StopsCleanup(s, db.nextVersion, d4, x) <==> HeldSchemaLeaves(db, s, x)
  {
    hide ServicesAre, KeyOf, Leaves, ServiceLeaves, KeepsSchemasOf, SurvivesCleanup;
    var c := db.schemas[x].connection;
    SameEnds(d4.connections[c], db.connections[c]);
    OldServiceLeaves(db, s, d2, db.connections[c].source);
    OldServiceLeaves(db, s, d2, db.connections[c].target);
  }

  lemma NewSchemaStopsIff(db: Tables, s: Scan, d2: Tables, d4: Tables, x: nat, i: nat, q: nat)
    requires Settled(db) && ServicesAre(db, s, d2) && d4.services == d2.services
    requires x in d4.schemas && Declared(db, s, i, q)
    requires RowOf(d2, d4, s, db.nextVersion, i, d4.schemas[x].connection)
    ensures StopsCleanup(s, db.nextVersion, d4, x) <==> DeclaredSchemaLeaves(db, s, i, q)
  {
    RowEnds(db, s, d2, d4, i, d4.schemas[x].connection);
    hide Settled, ServicesAre, NameLeaves, NameGoes, Declared, KeyIn, Current, Leaves;
  }

  lemma StopsIff(db: Tables, s: Scan, d1: Tables, d2: Tables, st: Stored, d4: Tables)
    requires Wrote(db, s, d1, d2, st, d4)
    ensures (exists x: nat :: StopsCleanup(s, db.nextVersion, d4, x))
            <==> (exists x: nat :: HeldSchemaLeaves(db, s, x))
                 || (exists i: nat, q: nat :: DeclaredSchemaLeaves(db, s, i, q))
  {
    hide Settled, ServicesAre, WellFormed, Stages, PersistConnections, AfterBegin, PersistSchemas, Outlasts, RowOf,
         StopsCleanup, HeldSchemaLeaves, DeclaredSchemaLeaves;
    SameServices(db, s, d1, d2, st, d4);
    forall x: nat | x in db.schemas
      ensures StopsCleanup(s, db.nextVersion, d4, x) <==> HeldSchemaLeaves(db, s, x)
    {
      OldSchemaRow(db, s, d1, d2, st, d4, x);
      OldSchemaStopsIff(db, s, d2, d4, x);
    }
    if x: nat :| StopsCleanup(s, db.nextVersion, d4, x) {
      if x !in db.schemas {
        StopsIsWritten(s, db.nextVersion, d4, x);
        var i, q := NewSchemaRow(db, s, d1, d2, st, d4, x);
        NewSchemaStopsIff(db, s, d2, d4, x, i, q);
      }
    }
    if x: nat :| HeldSchemaLeaves(db, s, x) {
      HeldIsASchema(db, s, x);
    }
    if i: nat, q: nat :| DeclaredSchemaLeaves(db, s, i, q) {
      LeavesIsDeclared(db, s, i, q);
      var x := DeclaredSchemaHasRow(db, s, d1, d2, st, d4, i, q);
      NewSchemaStopsIff(db, s, d2, d4, x, i, q);
    }
  }

  lemma StopsIsWritten(s: Scan, n: nat, d4: Tables, x: nat)
    requires StopsCleanup(s, n, d4, x)
    ensures x in d4.schemas
  {
  }

  lemma HeldIsASchema(db: Tables, s: Scan, x: nat)
    requires HeldSchemaLeaves(db, s, x)
    ensures x in db.schemas
  {
  }

  lemma LeavesIsDeclared(db: Tables, s: Scan, i: nat, q: nat)
    requires DeclaredSchemaLeaves(db, s, i, q)
    ensures Declared(db, s, i, q)
  {
  }

  // After a transaction that committed, the clean-up of deleted files meets a schema in its way exactly when the
  // transaction kept or wrote one on a connection of a service that leaves.
  lemma CleanupFailsIff(db: Tables, s: Scan)
    requires Settled(db) && NoPending(db) && s.mode.Incremental? && WriteTx(db, s).Done?
    ensures SchemaOnDoomed(WriteTx(db, s).value, s.repo, s.deleted) <==> CleanupFails(db, s)
  {
    hide Settled, NoPending, WellFormed, HeldSchemaLeaves, DeclaredSchemaLeaves, SchemaOnDoomed, ApplyFirst, EndScan,
         AfterFindings, ServicesAre, StopsCleanup, KeptSchemas;
    var d1, d2, st, d4 := WhatWasWritten(db, s);
    StopsIff(db, s, d1, d2, st, d4);
    SameServices(db, s, d1, d2, st, d4);
    hide Stages, PersistConnections, PersistSchemas, AfterBegin;
    IncrementalResult(db, s, d2, d4);
    hide Wrote;
    DoomedIff(s, db.nextVersion, d4, WriteTx(db, s).value);
  }

  // With no override pending, a scan of any findings returns, given enough statements, exactly when its transaction
  // commits and, if it is incremental, no schema that the transaction keeps or writes hangs on a connection of a
  // service that the deleted files take away.
  lemma ScanReturnsIff(db: Tables, s: Scan)
    requires Settled(db) && NoPending(db)
    ensures (exists db' :: Returns(db, s, db')) <==> !AnyFails(db, s) && !CleanupFails(db, s)
  {
    hide Settled, NoPending, WriteTx, AnyFails, CleanupFails, SchemaOnDoomed, Returns;
    AnyScanThrowsIff(db, s);
    ReturnsIff(db, s);
    if WriteTx(db, s).Done? && s.mode.Incremental? {
      CleanupFailsIff(db, s);
    }
    if s.mode.Full? {
      FullHasNoCleanup(db, s);
    }
  }

  lemma FullHasNoCleanup(db: Tables, s: Scan)
    requires s.mode.Full?
    ensures !CleanupFails(db, s)
  {
  }

  // For closed findings, with the four causes of ScanThrowsIff.
  lemma ClosedScanReturnsIff(db: Tables, s: Scan)
    requires Settled(db) && NoPending(db) && Closed(s.findings)
    ensures (exists db' :: Returns(db, s, db')) <==> !Fails(db, s) && !CleanupFails(db, s)
  {
    hide *;
    ScanThrowsIff(db, s);
    AnyScanThrowsIff(db, s);
    ScanReturnsIff(db, s);
  }

  // ---------------------------------------------------------------- a file that is deleted after a full scan

  const NO_FINDINGS: Findings := Findings([], [], [], {})

  lemma NothingPendingAfter(db: Tables, s: Scan)
    requires Settled(db) && NoPending(db) && WriteTx(db, s).Done?
    ensures NoPending(WriteTx(db, s).value)
  {
    hide WriteTx, Settled, WellFormed, PersistConnections, PersistSchemas, Unblocked, AfterBegin;
    var d1, d2, st, d4 := StagesOfAScan(db, s);
    SameOverrides(db, s, d1, d2, st, d4);
    hide Stages;
  }

  lemma SameOverrides(db: Tables, s: Scan, d1: Tables, d2: Tables, st: Stored, d4: Tables)
    requires Stages(db, s, d1, d2, st, d4)
    ensures d4.overrides == db.overrides
  {
    hide ServicesPersisted, ConnectionsPersisted, AllStored;
  }

  // The previous scan's connection moves to an incremental scan, so that its schemas are kept.
  lemma LatestMoves(db: Tables, s: Scan, c: nat)
    requires Settled(db) && s.repo in db.repos && s.mode.Incremental? && c in db.connections
    requires Owned(db, db.connections[c], s.repo)
    requires db.connections[c].version == db.services[db.connections[c].source].version
    ensures MovesToThisScan(db, s, c)
  {
    PreviousScanStampedAll(db, s, db.connections[c].source);
    SameLatest(db, s);
    hide LatestCompleted, Settled;
  }

  lemma NothingFoundCommits(db: Tables, s: Scan)
    requires s.findings == NO_FINDINGS && s.mode.Incremental? && s.repo in db.repos
    ensures !AnyFails(db, s)
  {
  }

  lemma ScannedServiceLeaves(db: Tables, s: Scan, s': Scan, x: nat)
    requires Settled(db) && NoPending(db) && s.mode.Full? && WriteTx(db, s).Done?
    requires s'.repo == s.repo && s'.findings == NO_FINDINGS
    requires x in WriteTx(db, s).value.services && WriteTx(db, s).value.services[x].repo == s.repo
    requires FoundInDeleted(s.(deleted := s'.deleted), WriteTx(db, s).value.services[x].name)
    ensures WriteTx(db, s).value.services[x].version == Some(db.nextVersion)
    ensures ServiceLeaves(WriteTx(db, s).value, s', x)
  {
    FullScanLeavesExactlyTheFindings(db, s);
    hide WriteTx, Settled, NoPending, LastNamed;
  }

  // A full scan stores a schema on a call of a service, and then the file of the service is deleted: the incremental
  // scan commits, and cannot return.
  lemma DeletedFileNeverReturns(db: Tables, s: Scan, s': Scan, i: nat, q: nat)
    requires Settled(db) && NoPending(db) && Closed(s.findings) && s.mode.Full? && WriteTx(db, s).Done?
    requires Declared(db, s, i, q) && s.repo in db.repos
    requires s'.repo == s.repo && s'.mode.Incremental? && s'.findings == NO_FINDINGS
    requires FoundInDeleted(s.(deleted := s'.deleted), s.findings.connections[i].source)
    ensures WriteTx(WriteTx(db, s).value, s').Done?
    ensures !exists db' :: Returns(WriteTx(db, s).value, s', db')
  {
    hide WriteTx, Settled, NoPending, Closed, AnyFails, FoundInDeleted, Returns;
    var after := WriteTx(db, s).value;
    var c := SchemaIsStored(db, s, i, q);
    WriteTxSettles(db, s);
    NothingPendingAfter(db, s);
    SameRepos(db, s);
    var x := after.connections[c].source;
    ScannedServiceLeaves(db, s, s', x);
    LatestMoves(after, s', c);
    NothingFoundCommits(after, s');
    AnyScanThrowsIff(after, s');
    ScanReturnsIff(after, s');
    var h :| h in after.schemas && after.schemas[h].connection in {c};
    hide ServiceLeaves, MovesToThisScan, Declared;
    assert HeldSchemaLeaves(after, s', h);
  }

  lemma SameRepos(db: Tables, s: Scan)
    requires Settled(db) && NoPending(db) && WriteTx(db, s).Done?
    ensures WriteTx(db, s).value.repos == db.repos
  {
    hide WriteTx, Settled, WellFormed, PersistConnections, PersistSchemas, Unblocked, AfterBegin;
    var d1, d2, st, d4 := StagesOfAScan(db, s);
    ReposStay(db, s, d1, d2, st, d4);
    hide Stages;
  }

  lemma ReposStay(db: Tables, s: Scan, d1: Tables, d2: Tables, st: Stored, d4: Tables)
    requires Stages(db, s, d1, d2, st, d4)
    ensures d4.repos == db.repos
  {
    hide ServicesPersisted, ConnectionsPersisted, AllStored;
  }

  const IN_FILE: ServiceFinding := SERVICE_A.(sourceFile := "f")

  lemma OneCallIsDeclared(db: Tables, s: Scan)
    requires s.findings == ONE_CALL.(services := [IN_FILE])
    ensures Declared(db, s, 0, 0) && Named(s.findings.services, "a")
    ensures forall deleted: seq<string> :: "f" in deleted ==> FoundInDeleted(s.(deleted := deleted), "a")
  {
    assert s.findings.services[0].name == "a";
  }

  // From the empty tables: a full scan of one call with a schema, and then its file is deleted.
  lemma DeletedFileRun(first: Scan, second: Scan)
    requires first.repo == second.repo == 1 && first.mode.Full? && first.findings == ONE_CALL.(services := [IN_FILE])
    requires second.mode.Incremental? && second.findings == NO_FINDINGS && "f" in second.deleted
    ensures var db := Run([AddRepo(1), RunScan(first, InCleanup(0))]);
            WriteTx(db, second).Done? && !exists db' :: Returns(db, second, db')
  {
    var db := EMPTY.(repos := {1});
    OneRepo();
    RunOfTwo(AddRepo(1), RunScan(first, InCleanup(0)));
    NothingFails(db, first, IN_FILE);
    OneCallIsDeclared(db, first);
    hide WriteTx, Settled, Run, Fails, Closed, NoPending, Returns, Declared, FoundInDeleted;
    ScanThrowsIff(db, first);
    FullScanHasNoCleanup(db, first);
    DeletedFileNeverReturns(db, first, second, 0, 0);
  }

  lemma OneRepo()
    ensures Run([AddRepo(1)]) == EMPTY.(repos := {1})
    ensures Settled(EMPTY.(repos := {1})) && NoPending(EMPTY.(repos := {1}))
  {
    RunsStaySettled([AddRepo(1)]);
    RunOfOne(AddRepo(1));
  }

  // A scan that finds a call with a schema in a file it was told is deleted.
  lemma FoundInADeletedFileRun(s: Scan)
    requires s.repo == 1 && s.mode.Incremental? && s.findings == ONE_CALL.(services := [IN_FILE]) && "f" in s.deleted
    ensures WriteTx(Run([AddRepo(1)]), s).Done? && !exists db' :: Returns(Run([AddRepo(1)]), s, db')
  {
    var db := EMPTY.(repos := {1});
    OneRepo();
    NothingFails(db, s, IN_FILE);
    OneCallIsDeclared(db, s);
    assert s.(deleted := s.deleted) == s;
    hide WriteTx, Settled, Run, Fails, Closed, NoPending, Returns, Declared, FoundInDeleted;
    ScanThrowsIff(db, s);
    ClosedScanReturnsIff(db, s);
    assert DeclaredSchemaLeaves(db, s, 0, 0);
  }
}
