// When a scan commits: the exact condition, in the tables before it and its findings.
module ScanCommits {
  import opened Common
  import Paths
  import opened ScanTables
  import opened ScanPipeline
  import opened ScanIntegrity
  import opened ScanRuns
  import opened ScanEffects
  import opened ScanTheorems
  import opened ScanIsolation
  import opened ScanRescan
  import opened ScanFindings
  import opened ScanCleanup

  // ---------------------------------------------------------------- the connection loop

  // Finding j is stored under the concrete key of row c, which has a schema.
  ghost predicate HitsSchema(db: Tables, repo: nat, cs: seq<ConnectionFinding>, rejected: set<nat>, j: nat, c: nat) {
    && j < |cs| && c in db.connections && HasSchema(db.schemas, {c}) && Concrete(KeyOf(db.connections[c]))
    && StoredKey(db, repo, cs, rejected, j) == Some(KeyOf(db.connections[c]))
  }

  lemma HitInLonger(db: Tables, repo: nat, cs: seq<ConnectionFinding>, rejected: set<nat>, j: nat, c: nat)
    requires cs != [] && HitsSchema(db, repo, cs[..|cs| - 1], rejected, j, c)
    ensures HitsSchema(db, repo, cs, rejected, j, c)
  {
    StoredInLonger(db, repo, cs, rejected);
    hide StoredKey, IsStored, KeyOf;
  }

  // A REPLACE that throws meets a row that was there before the loop: new rows have no schemas yet.
  lemma ThrowingFindingHits(db: Tables, st: Stored, repo: nat, cs: seq<ConnectionFinding>, rejected: set<nat>, n: nat)
      returns (c: nat)
    requires WellFormed(db) && cs != [] && PersistConnections(db, repo, cs[..|cs| - 1], rejected, n) == Done(st)
    requires PersistConnection(st, repo, cs[|cs| - 1], |cs| - 1, rejected, n).Thrown?
    ensures HitsSchema(db, repo, cs, rejected, |cs| - 1, c)
  {
    var front, last := cs[..|cs| - 1], |cs| - 1;
    PersistConnectionsKeepsIntegrity(db, repo, front, rejected, n);
    PersistConnectionsEffect(db, repo, front, rejected, n);
    var key := ThrowingKey(db, st, repo, cs, rejected, n);
    hide WellFormed, PersistConnection, PersistConnections, StoredKey, Concrete;
    var x :| x in st.db.schemas && st.db.schemas[x].connection in Replaced(st.db.connections, key);
    c := st.db.schemas[x].connection;
    SchemaConnectionIsOld(db, x);
    assert KeptOrReplaced(db, st.db.connections, c, repo, front, rejected);
    hide ConnectionsPersisted, KeptOrReplaced;
    assert db.schemas[x].connection in {c};
  }

  lemma SchemaConnectionIsOld(db: Tables, x: nat)
    requires WellFormed(db) && x in db.schemas
    ensures db.schemas[x].connection in db.connections
  {
  }

  lemma ThrowingKey(db: Tables, st: Stored, repo: nat, cs: seq<ConnectionFinding>, rejected: set<nat>, n: nat)
      returns (key: Key)
    requires cs != [] && st.db.services == db.services && st.db.nextService == db.nextService
    requires PersistConnection(st, repo, cs[|cs| - 1], |cs| - 1, rejected, n).Thrown?
    ensures StoredKey(db, repo, cs, rejected, |cs| - 1) == Some(key)
    ensures HasSchema(st.db.schemas, Replaced(st.db.connections, key))
    ensures Concrete(key)
  {
    var f := cs[|cs| - 1];
    var source, target := Resolve(st.db, repo, f.source), Resolve(st.db, repo, f.target);
    assert Resolve(db, repo, f.source) == source && Resolve(db, repo, f.target) == target;
    key := FindingKey(source.value, target.value, f);
    hide FindService, FindByName, Paths.CanonicalProtocol, Paths.CanonicalizePath, FindTemplate, MergePathTemplates;
    assert KeyOf(ConnectionRow(st.db, source.value, target.value, f, n)) == key;
  }

  // The loop throws exactly when an evidenced, resolvable finding lands on the concrete key of a connection that
  // has a schema, whatever order the findings come in.
  lemma {:induction false} ConnectionsThrowIff(db: Tables, repo: nat, cs: seq<ConnectionFinding>, rejected: set<nat>,
                                               n: nat)
    requires WellFormed(db)
    ensures PersistConnections(db, repo, cs, rejected, n).Thrown?
            <==> exists j: nat, c: nat :: HitsSchema(db, repo, cs, rejected, j, c)
  {
    hide WellFormed, PersistConnection, StoredKey;
    if j: nat, c: nat :| HitsSchema(db, repo, cs, rejected, j, c) {
      SchemaBlocksItsKey(db, repo, cs, rejected, n, c, j);
    } else if cs != [] {
      var front, last := cs[..|cs| - 1], |cs| - 1;
      ConnectionsThrowIff(db, repo, front, rejected, n);
      hide HitsSchema;
      if PersistConnections(db, repo, front, rejected, n).Thrown? {
        var j: nat, c: nat :| HitsSchema(db, repo, front, rejected, j, c);
        HitInLonger(db, repo, cs, rejected, j, c);
      } else {
        var st := PersistConnections(db, repo, front, rejected, n).value;
        if PersistConnection(st, repo, cs[last], last, rejected, n).Thrown? {
          var c := ThrowingFindingHits(db, st, repo, cs, rejected, n);
        }
      }
    }
  }

  // ---------------------------------------------------------------- the four causes, before the scan

  // An evidenced finding lands on the concrete key of a connection that has a schema.
  ghost predicate LandsOnSchema(db: Tables, s: Scan, j: nat, c: nat) {
    && j < |s.findings.connections| && j !in s.findings.rejected
    && c in db.connections && HasSchema(db.schemas, {c})
    && LandsOn(db, s.repo, s.findings.connections[j], db.connections[c])
  }

  // Two evidenced findings are one call, and a schema finding belongs to the earlier one.
  ghost predicate SchemaOnRepeated(f: Findings, i: nat, j: nat, q: nat) {
    SameCall(f, i, j) && q < |f.schemas| && f.schemas[q].connectionIndex == Some(i)
  }

  // A service of the repo that a full scan does not find again.
  predicate Goes(services: map<nat, Service>, x: nat, repo: nat, fs: seq<ServiceFinding>) {
    x in services && services[x].repo == repo && forall i :: 0 <= i < |fs| ==> fs[i].name != services[x].name
  }

  // Another repo's connection into a service that goes has a schema.
  ghost predicate SchemaIntoGoing(db: Tables, s: Scan, x: nat) {
    && s.mode.Full? && x in db.schemas && ForeignSchema(db, x, s.repo)
    && Goes(db.services, db.connections[db.schemas[x].connection].target, s.repo, s.findings.services)
  }

  ghost predicate Fails(db: Tables, s: Scan) {
    || s.repo !in db.repos
    || (exists j: nat, c: nat :: LandsOnSchema(db, s, j, c))
    || (exists i: nat, j: nat, q: nat :: SchemaOnRepeated(s.findings, i, j, q))
    || (exists x: nat :: SchemaIntoGoing(db, s, x))
  }

  // ---------------------------------------------------------------- stage by stage

  lemma WrittenAtServices(db: Tables, s: Scan, d1: Tables, d2: Tables)
    requires Carried(db, d1, s)
    requires ServicesPersisted(d1.services, d2.services, db.nextService, s.repo, s.findings.services, db.nextVersion)
    ensures Written(db.services, d2.services, s, db.nextVersion)
  {
    forall x | x in d1.services
      ensures d2.services[x].repo == d1.services[x].repo && d2.services[x].name == d1.services[x].name
    {
      RewrittenKeepsName(d1.services[x], s.repo, s.findings.services, db.nextVersion);
    }
  }

  lemma CarriedRow(db: Tables, d1: Tables, s: Scan, c: nat)
    requires Carried(db, d1, s) && c in db.connections
    ensures c in d1.connections && KeyOf(d1.connections[c]) == KeyOf(db.connections[c]) && d1.schemas == db.schemas
  {
  }

  lemma CarriedRows(db: Tables, d1: Tables, s: Scan)
    requires Carried(db, d1, s)
    ensures d1.connections.Keys == db.connections.Keys && d1.schemas == db.schemas && d1.nextService == db.nextService
  {
  }

  // Hits after the services are written are landings before the scan.
  lemma HitsAreLandings(db: Tables, s: Scan, d1: Tables, d2: Tables, j: nat, c: nat)
    requires WellFormed(db) && WellFormed(d2) && Closed(s.findings) && Carried(db, d1, s)
    requires d2 == d1.(services := d2.services, nextService := d2.nextService)
    requires ServicesPersisted(d1.services, d2.services, db.nextService, s.repo, s.findings.services, db.nextVersion)
    ensures HitsSchema(d2, s.repo, s.findings.connections, s.findings.rejected, j, c) <==> LandsOnSchema(db, s, j, c)
  {
    hide WellFormed, Carried, ServicesPersisted, Closed, HasSchema, StoredKey, LandsOn;
    WrittenAtServices(db, s, d1, d2);
    CarriedRows(db, d1, s);
    if c in db.connections {
      CarriedRow(db, d1, s, c);
      if LandsOnSchema(db, s, j, c) {
        CarriedLandsOn(db, d1, s, s.findings.connections[j], c);
        LandingIsStored(d1, d2, s, d1.connections[c], db.nextVersion, j);
        LandsOnConcrete(d1, s.repo, s.findings.connections[j], d1.connections[c]);
      }
      if HitsSchema(d2, s.repo, s.findings.connections, s.findings.rejected, j, c) {
        DeclaredConstraints(db);
        HitLands(db, d2, s, j, c);
      }
    }
  }

  lemma HitLands(db: Tables, d2: Tables, s: Scan, j: nat, c: nat)
    requires WellFormed(d2) && Closed(s.findings) && Written(db.services, d2.services, s, db.nextVersion)
    requires HitsSchema(d2, s.repo, s.findings.connections, s.findings.rejected, j, c)
    requires c in db.connections && KeyOf(d2.connections[c]) == KeyOf(db.connections[c]) && d2.schemas == db.schemas
    requires db.connections[c].source in db.services && db.connections[c].target in db.services
    ensures LandsOnSchema(db, s, j, c)
  {
    var fs := s.findings;
    assert j !in fs.rejected;
    StoredAsNamed(d2, s.repo, fs, j);
    var key := KeyOf(db.connections[c]);
    hide WellFormed, StoredKey, Closed, HasSchema, FindingKey;
    OldNames(db.services, d2.services, s, db.nextVersion, key.source);
    OldNames(db.services, d2.services, s, db.nextVersion, key.target);
  }

  lemma OldNames(before: map<nat, Service>, written: map<nat, Service>, s: Scan, n: nat, x: nat)
    requires Written(before, written, s, n) && x in before
    ensures x in written && written[x].repo == before[x].repo && written[x].name == before[x].name
  {
  }

  // A replaced finding with a schema is, by name, a repeated call.
  lemma ReplacedIsRepeated(d2: Tables, repo: nat, f: Findings, i: nat) returns (j: nat)
    requires WellFormed(d2) && Closed(f) && ReplacedLater(KeysOf(d2, repo, f.connections, f.rejected), i)
    requires forall name :: Named(f.services, name) ==> HasService(d2.services, repo, name)
    ensures SameCall(f, i, j)
  {
    var keys := KeysOf(d2, repo, f.connections, f.rejected);
    j :| i < j < |keys| && keys[j] == keys[i];
    assert keys[i] == StoredKey(d2, repo, f.connections, f.rejected, i)
           && keys[j] == StoredKey(d2, repo, f.connections, f.rejected, j);
    assert i !in f.rejected && j !in f.rejected;
    StoredAsNamed(d2, repo, f, i);
    StoredAsNamed(d2, repo, f, j);
    hide StoredKey, KeysOf, WellFormed, Closed, Paths.CanonicalProtocol, Paths.Canonicalize, Named;
  }

  lemma ReplacedSchemasAreRepeated(d2: Tables, repo: nat, f: Findings)
    requires WellFormed(d2) && Closed(f)
    requires forall name :: Named(f.services, name) ==> HasService(d2.services, repo, name)
    ensures (exists q: nat :: SchemaOnReplaced(d2, repo, f, q))
            <==> (exists i: nat, j: nat, q: nat :: SchemaOnRepeated(f, i, j, q))
  {
    hide WellFormed, Closed, SameCall, ReplacedLater;
    if q: nat :| SchemaOnReplaced(d2, repo, f, q) {
      var i: nat := f.schemas[q].connectionIndex.value;
      var j := ReplacedIsRepeated(d2, repo, f, i);
      assert SchemaOnRepeated(f, i, j, q);
    }
    if i: nat, j: nat, q: nat :| SchemaOnRepeated(f, i, j, q) {
      SameCallSameKey(d2, repo, f, i, j);
      assert SchemaOnReplaced(d2, repo, f, q);
    }
  }

  // What stops endScan is there before the scan: another repo's schema on a connection into a service that goes.
  lemma BlockedIffIntoGoing(db: Tables, s: Scan, d1: Tables, d2: Tables, st: Stored, d4: Tables)
    requires Settled(db) && WellFormed(d2) && WellFormed(d4) && Closed(s.findings) && Stages(db, s, d1, d2, st, d4)
    requires s.mode.Full? ==> d1 == Begun(db, s)
    ensures !Unblocked(d4, s.repo, db.nextVersion) <==> exists x: nat :: SchemaIntoGoing(db, s, x)
  {
    hide WellFormed, Closed, Stages;
    if !Unblocked(d4, s.repo, db.nextVersion) {
      var x: nat :| x in d4.schemas && Blocks(d4, d4.schemas[x], s.repo, db.nextVersion);
      BlockingIsIntoGoing(db, s, d1, d2, st, d4, x);
    }
    if x: nat :| SchemaIntoGoing(db, s, x) {
      IntoGoingBlocks(db, s, d1, d2, st, d4, x);
    }
  }

  lemma BlockingIsIntoGoing(db: Tables, s: Scan, d1: Tables, d2: Tables, st: Stored, d4: Tables, x: nat)
    requires Settled(db) && WellFormed(d2) && WellFormed(d4) && Closed(s.findings) && Stages(db, s, d1, d2, st, d4)
    requires s.mode.Full? ==> d1 == Begun(db, s)
    requires x in d4.schemas && Blocks(d4, d4.schemas[x], s.repo, db.nextVersion)
    ensures SchemaIntoGoing(db, s, x)
  {
    hide Settled, WellFormed, Closed, Stages, Written, Current;
    var c, n := d4.schemas[x].connection, db.nextVersion;
    SettledIsWellFormed(db);
    ServicesWhenWritten(db, s, d1, d2, st, d4);
    ForeignSchemasUntouched(db, s, d1, d2, st, d4, x);
    if Owned(d4, d4.connections[c], s.repo) {
      OwnConnectionsDoNotBlock(db, s, d1, d2, st, d4, c);
      assert false;
    }
    ForeignConnectionsUntouched(db, s, d1, d2, st, d4, c);
    DanglingNowhere(db);
    hide NoDangling, Owned;
    BlockingTargetGoes(db, d2, d4, s, c);
  }

  lemma BlockingTargetGoes(db: Tables, d2: Tables, d4: Tables, s: Scan, c: nat)
    requires Settled(db) && Written(db.services, d2.services, s, db.nextVersion) && d4.services == d2.services
    requires c in db.connections && c in d4.connections && d4.connections[c] == db.connections[c]
    requires NoDangling(db.connections, db.services)
    requires !Owned(d4, d4.connections[c], s.repo)
    requires !(d4.connections[c].source in Current(d4.services, s.repo, db.nextVersion)
               && d4.connections[c].target in Current(d4.services, s.repo, db.nextVersion))
    ensures s.mode.Full? && Goes(db.services, db.connections[c].target, s.repo, s.findings.services)
  {
    var row := db.connections[c];
    OldNames(db.services, d2.services, s, db.nextVersion, row.source);
    OldNames(db.services, d2.services, s, db.nextVersion, row.target);
    OldVersionsAreOld(db, row.target);
    if s.mode.Incremental? {
      WrittenServicesAreCurrent(db.services, d2.services, s, db.nextVersion);
    } else {
      GoneServiceGoes(db, d2, s, row.target);
    }
    hide Settled, Written, NoDangling, Goes;
  }

  // A service that is not current when endScan runs is one of the repo's old ones that were not found.
  lemma GoneServiceGoes(db: Tables, d2: Tables, s: Scan, x: nat)
    requires s.mode.Full? && Written(db.services, d2.services, s, db.nextVersion) && x in db.services
    requires db.services[x].version != Some(db.nextVersion)
    ensures x !in Current(d2.services, s.repo, db.nextVersion) <==> Goes(db.services, x, s.repo, s.findings.services)
  {
  }

  lemma OwnConnectionsDoNotBlock(db: Tables, s: Scan, d1: Tables, d2: Tables, st: Stored, d4: Tables, c: nat)
    requires Settled(db) && WellFormed(d2) && Closed(s.findings) && Stages(db, s, d1, d2, st, d4)
    requires s.mode.Full? ==> d1 == Begun(db, s)
    requires c in d4.connections && Owned(d4, d4.connections[c], s.repo)
             && d4.connections[c].version == Some(db.nextVersion)
    ensures d4.connections[c].source in Current(d4.services, s.repo, db.nextVersion)
    ensures d4.connections[c].target in Current(d4.services, s.repo, db.nextVersion)
  {
    hide Settled, WellFormed, Closed, Stages, Written;
    var n := db.nextVersion;
    ServicesWhenWritten(db, s, d1, d2, st, d4);
    DanglingNowhere(d2);
    if c !in db.connections {
      NewKeyIsNamed(db, s, d1, d2, st, d4, c);
    } else if s.mode.Incremental? {
      WrittenServicesAreCurrent(db.services, d2.services, s, n);
      OldConnectionStays(db, s, d1, d2, st, d4, c);
    } else {
      OldConnectionStays(db, s, d1, d2, st, d4, c);
      OldStampsAreOld(db, c);
      assert false;
    }
  }

  lemma DanglingNowhere(db: Tables)
    requires WellFormed(db)
    ensures NoDangling(db.connections, db.services)
  {
  }

  lemma OldStampsAreOld(db: Tables, c: nat)
    requires Settled(db) && c in db.connections
    ensures db.connections[c].version != Some(db.nextVersion)
  {
    assert IdsBelow(db.versions, db.nextVersion);
  }

  lemma OldConnectionStays(db: Tables, s: Scan, d1: Tables, d2: Tables, st: Stored, d4: Tables, c: nat)
    requires Stages(db, s, d1, d2, st, d4) && c in d4.connections && c in db.connections
    ensures c in d2.connections && d4.connections[c] == d2.connections[c]
    ensures d1 == Begun(db, s) ==> d4.connections[c] == db.connections[c]
  {
    hide ServicesPersisted, AllStored, IsStored;
    assert KeptOrReplaced(d2, st.db.connections, c, s.repo, s.findings.connections, s.findings.rejected);
  }

  // A new connection joins services that the findings name, and those are current.
  lemma NewKeyIsNamed(db: Tables, s: Scan, d1: Tables, d2: Tables, st: Stored, d4: Tables, c: nat)
    requires WellFormed(d2) && Closed(s.findings) && Stages(db, s, d1, d2, st, d4)
    requires c in d4.connections && c !in db.connections
    ensures d4.connections[c].source in Current(d4.services, s.repo, db.nextVersion)
    ensures d4.connections[c].target in Current(d4.services, s.repo, db.nextVersion)
  {
    var f, key := s.findings, KeyOf(d4.connections[c]);
    ServicesWhenWritten(db, s, d1, d2, st, d4);
    assert IsStored(d2, s.repo, f.connections, f.rejected, key);
    StoredKeysAreOwn(d2, s.repo, f, key);
    hide WellFormed, Closed, Stages, IsStored, Named;
    NamedIsCurrent(db, d2, s, key.source, d2.services[key.source].name);
    NamedIsCurrent(db, d2, s, key.target, d2.services[key.target].name);
  }

  lemma IntoGoingBlocks(db: Tables, s: Scan, d1: Tables, d2: Tables, st: Stored, d4: Tables, x: nat)
    requires Settled(db) && WellFormed(d2) && WellFormed(d4) && Closed(s.findings) && Stages(db, s, d1, d2, st, d4)
    requires SchemaIntoGoing(db, s, x)
    ensures !Unblocked(d4, s.repo, db.nextVersion)
  {
    hide Settled, WellFormed, Closed, Stages, Written, Current, Goes;
    var c := db.schemas[x].connection;
    SettledIsWellFormed(db);
    DanglingNowhere(db);
    ServicesWhenWritten(db, s, d1, d2, st, d4);
    ForeignSchemasUntouched(db, s, d1, d2, st, d4, x);
    ForeignConnectionsUntouched(db, s, d1, d2, st, d4, c);
    OldVersionsAreOld(db, db.connections[c].target);
    GoneServiceGoes(db, d2, s, db.connections[c].target);
    assert Blocks(d4, d4.schemas[x], s.repo, db.nextVersion);
  }

  // ---------------------------------------------------------------- the theorem

  lemma FindingsThrowIff(db: Tables, s: Scan)
    requires Settled(db) && NoPending(db) && Closed(s.findings) && s.repo in db.repos
    ensures AfterFindings(db, s).Thrown?
            <==> (exists j: nat, c: nat :: LandsOnSchema(db, s, j, c))
                 || (exists i: nat, j: nat, q: nat :: SchemaOnRepeated(s.findings, i, j, q))
  {
    hide PersistServices, PersistConnections, PersistSchemas, AfterBegin, WellFormed, Settled, NoPending, Carried,
         ServicesPersisted, HitsSchema, LandsOnSchema, SchemaOnRepeated, SchemaOnReplaced, Closed;
    var f, n := s.findings, db.nextVersion;
    BeginningAScan(db, s);
    SettledIsWellFormed(db);
    var d1, d2 := ServicesStage(db, s);
    CarriedRows(db, d1, s);
    WrittenAtServices(db, s, d1, d2);
    ConnectionsThrowIff(d2, s.repo, f.connections, f.rejected, n);
    forall j: nat, c: nat
      ensures HitsSchema(d2, s.repo, f.connections, f.rejected, j, c) <==> LandsOnSchema(db, s, j, c)
    {
      HitsAreLandings(db, s, d1, d2, j, c);
    }
    assert forall name :: Named(f.services, name) ==> HasService(d2.services, s.repo, name);
    hide Written;
    ReplacedSchemasAreRepeated(d2, s.repo, f);
    if PersistConnections(d2, s.repo, f.connections, f.rejected, n).Done? {
      SchemasThrowIffReplaced(d2, s.repo, f, n);
    }
  }

  lemma ScanIsInTheTable(db: Tables, s: Scan, d1: Tables, d2: Tables, st: Stored, d4: Tables)
    requires Stages(db, s, d1, d2, st, d4)
    ensures db.nextVersion in d4.versions
  {
  }

  // From any settled state with no override pending, a scan of closed findings throws exactly when its repo is
  // unknown; or an evidenced finding lands on the method and path of a connection with a schema; or two evidenced
  // findings are one call and a schema belongs to the earlier; or, in a full scan, another repo's schema hangs on
  // a connection into a service that is not found again. In every other case it commits.
  lemma ScanThrowsIff(db: Tables, s: Scan)
    requires Settled(db) && NoPending(db) && Closed(s.findings)
    ensures WriteTx(db, s).Thrown? <==> Fails(db, s)
  {
    hide BeginScan, PersistFindings, EndScan, Settled, NoPending, WellFormed, LandsOnSchema, SchemaOnRepeated,
         SchemaIntoGoing, Closed, Stages, ApplyFirst;
    BeginningAScan(db, s);
    hide AfterBegin;
    if s.repo in db.repos {
      FindingsThrowIff(db, s);
      if AfterFindings(db, s).Done? {
        var d1, d2, st, d4 := StagesOfFindings(db, s);
        BlockedIffIntoGoing(db, s, d1, d2, st, d4);
        ScanIsInTheTable(db, s, d1, d2, st, d4);
        EndScanThrowsIffBlocked(d4, s.repo, db.nextVersion, s.now);
      }
    }
  }

  // The call returns, given enough statements, exactly when the transaction commits and no schema hangs on a
  // connection of a service that the deleted files take away.
  lemma ReturnsIff(db: Tables, s: Scan)
    requires Settled(db)
    ensures (exists db' :: Returns(db, s, db'))
            <==> WriteTx(db, s).Done?
                 && !(s.mode.Incremental? && SchemaOnDoomed(WriteTx(db, s).value, s.repo, s.deleted))
  {
    if WriteTx(db, s).Done? {
      var after := WriteTx(db, s).value;
      WriteTxSettles(db, s);
      CleanupEndsIff(after, s.repo, s.deleted);
      hide WriteTx, DeleteFiles, SchemaOnDoomed, Settled;
      if s.mode.Incremental? && !SchemaOnDoomed(after, s.repo, s.deleted) {
        var b: nat :| DeleteFiles(Progress(after, b, true), s.repo, s.deleted).ok;
        assert AfterCleanup(after, s, b).ok;
        assert Returns(db, s, AfterCleanup(after, s, b).db);
      } else if s.mode.Full? {
        assert AfterCleanup(after, s, 0).ok;
        assert Returns(db, s, AfterCleanup(after, s, 0).db);
      }
    }
  }

  // ---------------------------------------------------------------- the same findings a second time

  // A schema finding that names a stored finding has a row.
  lemma {:induction false} DeclaredSchemaIsWritten(db: Tables, ids: map<nat, nat>, ss: seq<SchemaFinding>, q: nat)
      returns (x: nat)
    requires WellFormed(db) && PersistSchemas(db, ids, ss).Done?
    requires q < |ss| && ss[q].connectionIndex.Some? && ss[q].connectionIndex.value in ids
    ensures var after := PersistSchemas(db, ids, ss).value;
            x in after.schemas && after.schemas[x].connection == ids[ss[q].connectionIndex.value]
  {
    var front, last := ss[..|ss| - 1], |ss| - 1;
    var before := PersistSchemas(db, ids, front).value;
    PersistSchemasOnlyAdds(db, ids, front);
    if q == last {
      x := before.nextSchema;
      var row := Schema(ids[ss[q].connectionIndex.value], ss[q].role, ss[q].name, OrNull(ss[q].file));
      FieldsNeverThrow(InsertSchema(before, row).value, before.nextSchema, ss[q].fields);
      hide PersistFields;
    } else {
      x := DeclaredSchemaIsWritten(db, ids, front, q);
      PersistSchemaOnlyAdds(before, ids, ss[last]);
      hide PersistSchema, WellFormed;
    }
  }

  // The finding that carries a schema has, when the scan commits, its row with that schema.
  lemma SchemaIsStored(db: Tables, s: Scan, i: nat, q: nat) returns (c: nat)
    requires Settled(db) && NoPending(db) && Closed(s.findings) && WriteTx(db, s).Done?
    requires i < |s.findings.connections| && i !in s.findings.rejected
    requires q < |s.findings.schemas| && s.findings.schemas[q].connectionIndex == Some(i)
    ensures var after, f := WriteTx(db, s).value, s.findings.connections[i];
            && c in after.connections && HasSchema(after.schemas, {c})
            && after.connections[c].version == Some(db.nextVersion)
            && IsService(after.services, after.connections[c].source, s.repo, f.source)
            && IsService(after.services, after.connections[c].target, s.repo, f.target)
            && KeyOf(after.connections[c]) == FindingKey(after.connections[c].source, after.connections[c].target, f)
  {
    hide Settled, NoPending, WriteTx, WellFormed;
    var fs, n := s.findings, db.nextVersion;
    var d1, d2, st, d4 := StagesOfAScan(db, s);
    ServicesWhenWritten(db, s, d1, d2, st, d4);
    StoredAsNamed(d2, s.repo, fs, i);
    var key := StoredKey(d2, s.repo, fs.connections, fs.rejected, i).value;
    IdsOfFindings(d2, s.repo, fs.connections, fs.rejected, n);
    SchemasThrowIffOrphaned(st.db, st.ids, fs.schemas);
    hide Closed, PersistConnections, PersistSchemas, StoredKey, FindingKey;
    var keys := KeysOf(d2, s.repo, fs.connections, fs.rejected);
    assert keys[i] == Some(key);
    assert RowOfIndex(keys, st, i);
    assert !Orphaned(st.db.connections, st.ids, fs.schemas[q]);
    c := st.ids[i];
    StoredWellFormed(d2, s.repo, fs, n);
    var x := DeclaredSchemaIsWritten(st.db, st.ids, fs.schemas, q);
    hide KeysOf, RowOfIndex, Orphaned, IdsAre;
    StoredRowIsNew(db, s, d1, d2, st, d4, i);
    NamedIsCurrent(db, d2, s, key.source, fs.connections[i].source);
    NamedIsCurrent(db, d2, s, key.target, fs.connections[i].target);
    CurrentRowsSurvive(d4, s.repo, n, s.now, c);
    hide Stages, Written;
    StampedSchemaSurvives(d4, s.repo, n, s.now, x);
  }

  lemma StoredWellFormed(d2: Tables, repo: nat, f: Findings, n: nat)
    requires WellFormed(d2) && PersistConnections(d2, repo, f.connections, f.rejected, n).Done?
    ensures WellFormed(PersistConnections(d2, repo, f.connections, f.rejected, n).value.db)
  {
    PersistConnectionsKeepsIntegrity(d2, repo, f.connections, f.rejected, n);
  }

  lemma StoredRowIsNew(db: Tables, s: Scan, d1: Tables, d2: Tables, st: Stored, d4: Tables, i: nat)
    requires Stages(db, s, d1, d2, st, d4) && WellFormed(d2) && i in st.ids && st.ids[i] in st.db.connections
    ensures d4.connections == st.db.connections && d4.connections[st.ids[i]].version == Some(db.nextVersion)
    ensures st.ids[i] !in db.connections
  {
    hide ServicesPersisted, AllStored, IsStored;
    assert IdsBelow(d2.connections, d2.nextConnection);
    assert st.ids[i] !in d2.connections;
  }

  lemma StampedSchemaSurvives(d4: Tables, repo: nat, n: nat, now: int, x: nat)
    requires n in d4.versions && x in d4.schemas && d4.schemas[x].connection in d4.connections
    requires d4.connections[d4.schemas[x].connection].version == Some(n)
    ensures HasSchema(EndScanResult(d4, repo, n, now).schemas, {d4.schemas[x].connection})
  {
    var schemas := EndScanResult(d4, repo, n, now).schemas;
    assert x in schemas && schemas[x].connection in {d4.schemas[x].connection};
  }

  lemma NamedRowIsLandedOn(db: Tables, repo: nat, f: ConnectionFinding, row: Connection)
    requires IsService(db.services, row.source, repo, f.source) && IsService(db.services, row.target, repo, f.target)
    requires KeyOf(row) == FindingKey(row.source, row.target, f) && f.verb != "" && f.path != ""
    ensures LandsOn(db, repo, f, row)
  {
    hide Paths.CanonicalProtocol, Paths.Canonicalize;
  }

  // A scan that stores a schema on a finding with a method and a path cannot be followed by a scan with the same
  // findings, in whatever mode and at whatever time: the second always throws.
  lemma SecondScanThrows(db: Tables, s: Scan, s': Scan, i: nat, q: nat)
    requires Settled(db) && NoPending(db) && Closed(s.findings) && WriteTx(db, s).Done?
    requires s'.repo == s.repo && s'.findings == s.findings
    requires i < |s.findings.connections| && i !in s.findings.rejected
    requires s.findings.connections[i].verb != "" && s.findings.connections[i].path != ""
    requires q < |s.findings.schemas| && s.findings.schemas[q].connectionIndex == Some(i)
    ensures WriteTx(WriteTx(db, s).value, s').Thrown?
  {
    var c := SchemaIsStored(db, s, i, q);
    WriteTxSettles(db, s);
    var after := WriteTx(db, s).value;
    hide WriteTx, Settled, NoPending, HasSchema, Closed;
    NamedRowIsLandedOn(after, s.repo, s.findings.connections[i], after.connections[c]);
    hide LandsOn, IsService, FindingKey;
    RescanOverASchemaThrows(after, s', c, i);
  }

  // ---------------------------------------------------------------- a run that gets there

  const SERVICE_A: ServiceFinding := ServiceFinding("a", "", "", "", "", "", "")

  // One service that calls itself, with a schema on the call.
  const ONE_CALL: Findings :=
    Findings([SERVICE_A],
             [ConnectionFinding("a", "a", "rest", "POST", "/x", Details(None, None, None, None, None, None, None))],
             [SchemaFinding(Some(0), "request", "X", "", [])], {})

  // From the empty tables: the repo is added, its first scan commits, and the second one with these findings throws.
  lemma FirstScanCommitsSecondThrows(first: Scan, second: Scan)
    requires first.repo == second.repo == 1 && first.mode.Full? && first.findings == second.findings == ONE_CALL
    ensures var db := Run([AddRepo(1)]); WriteTx(db, first).Done?
    ensures WriteTx(Run([AddRepo(1), RunScan(first, InCleanup(0))]), second).Thrown?
  {
    RunsStaySettled([AddRepo(1)]);
    RunOfOne(AddRepo(1));
    var db := Run([AddRepo(1)]);
    assert db == EMPTY.(repos := {1});
    hide WriteTx, Settled, Run;
    TwoScans(db, first, second);
    RunOfTwo(AddRepo(1), RunScan(first, InCleanup(0)));
    FullScanHasNoCleanup(db, first);
  }

  lemma TwoScans(db: Tables, first: Scan, second: Scan)
    requires db == EMPTY.(repos := {1}) && Settled(db)
    requires first.repo == second.repo == 1 && first.mode.Full? && first.findings == second.findings == ONE_CALL
    ensures WriteTx(db, first).Done? && WriteTx(WriteTx(db, first).value, second).Thrown?
  {
    NothingFails(db, first, SERVICE_A);
    assert NoPending(db);
    hide WriteTx, Fails, Settled, Closed, NoPending;
    ScanThrowsIff(db, first);
    SecondScanThrows(db, first, second, 0, 0);
  }

  lemma FullScanHasNoCleanup(db: Tables, s: Scan)
    requires s.mode.Full? && WriteTx(db, s).Done?
    ensures Step(db, RunScan(s, InCleanup(0))) == WriteTx(db, s).value
  {
    hide WriteTx;
  }

  lemma RunOfOne(e: Event)
    ensures Run([e]) == Step(EMPTY, e)
  {
    assert [e][..0] == [];
    assert Run([e]) == Step(Run([]), e);
  }

  lemma RunOfTwo(e: Event, e': Event)
    ensures Run([e, e']) == Step(Run([e]), e')
  {
    assert [e, e'][..1] == [e];
  }

  lemma NothingFails(db: Tables, s: Scan, a: ServiceFinding)
    requires db == EMPTY.(repos := {1}) && s.repo == 1 && s.findings == ONE_CALL.(services := [a]) && a.name == "a"
    ensures Closed(s.findings) && !Fails(db, s)
  {
    assert s.findings.services[0].name == "a";
    assert Named(s.findings.services, "a");
  }
}
