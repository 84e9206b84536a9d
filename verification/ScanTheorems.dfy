// What one scan that returns does to the tables: its stages, and the services and connections that a full and
// an incremental scan leave.
module ScanTheorems {
  import opened Common
  import opened ScanTables
  import opened ScanPipeline
  import opened ScanIntegrity
  import opened ScanRuns
  import opened ScanEffects

  // ---------------------------------------------------------------- the stages of one scan

  // A service as restamping leaves it: in incremental mode every row of the repo moves to scan n.
  function CarriedService(row: Service, s: Scan, n: nat): Service {
    if s.mode.Incremental? && row.repo == s.repo then row.(version := Some(n)) else row
  }

  ghost predicate SameButVersion(a: Connection, b: Connection) {
    a.(version := b.version) == b
  }

  // The tables when findings are about to be written.
  ghost predicate Carried(db: Tables, d1: Tables, s: Scan) {
    && d1 == db.(versions := d1.versions, nextVersion := d1.nextVersion, services := d1.services,
                 connections := d1.connections)
    && d1.services.Keys == db.services.Keys
    && (forall x :: x in db.services ==> d1.services[x] == CarriedService(db.services[x], s, db.nextVersion))
    && d1.connections.Keys == db.connections.Keys
    && (forall c :: c in db.connections ==>
          SameButVersion(d1.connections[c], db.connections[c])
          && (!Owned(db, db.connections[c], s.repo) ==> d1.connections[c] == db.connections[c]))
  }

  lemma PreviousScanStampedAll(db: Tables, s: Scan, x: nat)
    requires Settled(db) && s.repo in db.repos && x in db.services && db.services[x].repo == s.repo
    ensures LatestCompleted(Begun(db, s).versions, db.nextVersion + 1, s.repo) == db.services[x].version != None
  {
    var versions := Begun(db, s).versions;
    var latest := LatestCompleted(versions, db.nextVersion + 1, s.repo);
    var v := db.services[x].version.value;
    assert Stamped(db.services[x], db.versions);
    assert IsCompleted(versions, v, s.repo);
    assert IdsBelow(db.versions, db.nextVersion);
    assert IsCompleted(db.versions, latest.value, s.repo);
  }

  // By the run invariant the previous scan's id is on every row of the repo, so all of them move.
  lemma RestampCarriesAll(db: Tables, s: Scan)
    requires Settled(db) && s.repo in db.repos && s.mode.Incremental?
    ensures Carried(db, Restamp(Begun(db, s), s.repo, db.nextVersion), s)
  {
    var b, n := Begun(db, s), db.nextVersion;
    var latest := LatestCompleted(b.versions, b.nextVersion, s.repo);
    forall x | x in db.services && db.services[x].repo == s.repo ensures latest == db.services[x].version != None {
      PreviousScanStampedAll(db, s, x);
    }
    hide Settled, LatestCompleted;
    if latest.Some? {
      RestampedFrom(db, s, latest.value);
    } else {
      assert Restamp(b, s.repo, n) == b;
    }
  }

  lemma RestampedFrom(db: Tables, s: Scan, previous: nat)
    requires s.mode.Incremental?
    requires forall x :: x in db.services && db.services[x].repo == s.repo ==> db.services[x].version == Some(previous)
    requires LatestCompleted(Begun(db, s).versions, db.nextVersion + 1, s.repo) == Some(previous)
    ensures Carried(db, Restamp(Begun(db, s), s.repo, db.nextVersion), s)
  {
    hide LatestCompleted, RestampConnections;
    var b, n := Begun(db, s), db.nextVersion;
    var services := RestampServices(db.services, s.repo, previous, n);
    assert Restamp(b, s.repo, n)
        == b.(services := services, connections := RestampConnections(db.connections, services, s.repo, previous, n));
    hide Restamp;
    assert forall x :: x in db.services ==> services[x].repo == db.services[x].repo;
    RestampedConnections(db, services, s.repo, previous, n);
  }

  lemma RestampedConnections(db: Tables, services: map<nat, Service>, repo: nat, previous: nat, n: nat)
    requires services.Keys == db.services.Keys && forall x :: x in services ==> services[x].repo == db.services[x].repo
    ensures var after := RestampConnections(db.connections, services, repo, previous, n);
            && after.Keys == db.connections.Keys
            && forall c :: c in db.connections ==>
                 SameButVersion(after[c], db.connections[c])
                 && (!Owned(db, db.connections[c], repo) ==> after[c] == db.connections[c])
  {
  }

  lemma BegunCarriesAll(db: Tables, s: Scan)
    requires s.mode.Full?
    ensures Carried(db, Begun(db, s), s)
  {
  }

  // The tables after services, connections and schemas, linked stage by stage.
  ghost predicate Stages(db: Tables, s: Scan, d1: Tables, d2: Tables, st: Stored, d4: Tables) {
    var n := db.nextVersion;
    && Carried(db, d1, s)
    && d2 == d1.(services := d2.services, nextService := d2.nextService)
    && ServicesPersisted(d1.services, d2.services, db.nextService, s.repo, s.findings.services, n)
    && st.db == d2.(connections := st.db.connections, nextConnection := st.db.nextConnection)
    && ConnectionsPersisted(d2, st, s.repo, s.findings.connections, s.findings.rejected, n)
    && AllStored(d2, st.db.connections, s.repo, s.findings.connections, s.findings.rejected)
    && OnlyAddsSchemas(st.db, d4, st.ids)
    && n in d4.versions
  }

  // A scan that has begun, up to its services.
  lemma ServicesStage(db: Tables, s: Scan) returns (d1: Tables, d2: Tables)
    requires Settled(db) && AfterBegin(db, s).Done?
    ensures AfterBegin(db, s) == Done(d1) && Carried(db, d1, s) && (s.mode.Full? ==> d1 == Begun(db, s))
    ensures d2 == PersistServices(d1, s.repo, s.findings.services, db.nextVersion)
    ensures WellFormed(d2) && d2 == d1.(services := d2.services, nextService := d2.nextService)
    ensures ServicesPersisted(d1.services, d2.services, db.nextService, s.repo, s.findings.services, db.nextVersion)
    ensures db.nextVersion in d2.versions
  {
    hide Counters, UniqueNames, NoDangling, UniqueKeys, SchemasOwned, FieldsOwned, ServicesRefer, StampsRefer;
    BeginningAScan(db, s);
    BegunIsScanning(db, s);
    RestampKeepsScanning(Begun(db, s), s.repo, db.nextVersion);
    d1 := AfterBegin(db, s).value;
    assert Carried(db, d1, s) by {
      if s.mode.Incremental? { RestampCarriesAll(db, s); } else { BegunCarriesAll(db, s); }
    }
    FrameOfCarried(db, d1, s);
    hide Restamp, Carried, BeginScan;
    d2 := PersistServices(d1, s.repo, s.findings.services, db.nextVersion);
    PersistServicesKeepsIntegrity(d1, s.repo, s.findings.services, db.nextVersion);
    PersistServicesEffect(d1, s.repo, s.findings.services, db.nextVersion);
  }

  // A scan whose findings have been written; with no override pending they stand as endScan meets them.
  lemma StagesOfFindings(db: Tables, s: Scan) returns (d1: Tables, d2: Tables, st: Stored, d4: Tables)
    requires Settled(db) && NoPending(db) && AfterFindings(db, s).Done?
    ensures Stages(db, s, d1, d2, st, d4)
    ensures WellFormed(d2) && WellFormed(d4)
    ensures s.mode.Full? ==> d1 == Begun(db, s)
    ensures PersistConnections(d2, s.repo, s.findings.connections, s.findings.rejected, db.nextVersion) == Done(st)
    ensures PersistSchemas(st.db, st.ids, s.findings.schemas) == Done(d4)
    ensures AfterBegin(db, s) == Done(d1) && AfterFindings(db, s) == Done(d4)
            && ApplyPendingOverrides(d4, db.nextVersion, s.faults).db == d4
  {
    hide Counters, UniqueNames, NoDangling, UniqueKeys, SchemasOwned, FieldsOwned, ServicesRefer, StampsRefer, Settled;
    var n := db.nextVersion;
    var f := s.findings;
    d1, d2 := ServicesStage(db, s);
    hide PersistServices, Carried, BeginScan, AfterBegin, ServicesPersisted;
    st := PersistConnections(d2, s.repo, f.connections, f.rejected, n).value;
    PersistConnectionsKeepsIntegrity(d2, s.repo, f.connections, f.rejected, n);
    PersistConnectionsEffect(d2, s.repo, f.connections, f.rejected, n);
    PersistConnectionsStoresAll(d2, s.repo, f.connections, f.rejected, n);
    d4 := PersistSchemas(st.db, st.ids, f.schemas).value;
    PersistSchemasOnlyAdds(st.db, st.ids, f.schemas);
    hide PersistConnections, PersistSchemas, WellFormed, ConnectionsPersisted, OnlyAddsSchemas, AllStored;
    assert d4.overrides == db.overrides && d4.versions == d2.versions by {
      FrameOfCarried(db, d1, s);
      FrameOfAdded(st.db, d4, st.ids);
    }
    NothingPending(d4, |d4.overrides|, n, s.faults);
    hide ApplyFirst;
  }

  lemma StagesOfAScan(db: Tables, s: Scan) returns (d1: Tables, d2: Tables, st: Stored, d4: Tables)
    requires Settled(db) && NoPending(db) && WriteTx(db, s).Done?
    ensures Stages(db, s, d1, d2, st, d4)
    ensures WellFormed(d2) && WellFormed(d4)
    ensures Unblocked(d4, s.repo, db.nextVersion)
    ensures s.mode.Full? ==> d1 == Begun(db, s)
    ensures PersistConnections(d2, s.repo, s.findings.connections, s.findings.rejected, db.nextVersion) == Done(st)
    ensures AfterBegin(db, s) == Done(d1) && PersistSchemas(st.db, st.ids, s.findings.schemas) == Done(d4)
    ensures WriteTx(db, s).value == EndScanResult(d4, s.repo, db.nextVersion, s.now)
  {
    d1, d2, st, d4 := StagesOfFindings(db, s);
    hide Settled, NoPending, AfterFindings, WellFormed, PersistConnections, PersistSchemas, ApplyPendingOverrides;
    assert db.nextVersion in d4.versions;
    hide Stages;
    EndScanClosedForm(d4, s.repo, db.nextVersion, s.now);
  }

  lemma FrameOfCarried(db: Tables, d1: Tables, s: Scan)
    requires Carried(db, d1, s)
    ensures d1.nextService == db.nextService && d1.overrides == db.overrides
  {
  }

  lemma FrameOfAdded(db: Tables, after: Tables, ids: map<nat, nat>)
    requires OnlyAddsSchemas(db, after, ids)
    ensures after.overrides == db.overrides && after.versions == db.versions
  {
  }

  // ---------------------------------------------------------------- services

  // Every service row when the findings are written: named by them, or carried over.
  ghost predicate Written(before: map<nat, Service>, written: map<nat, Service>, s: Scan, n: nat) {
    && (forall x | x in written && IsNamedHere(written[x], s.repo, s.findings.services)
          :: written[x] == ServiceRow(s.repo, LastNamed(s.findings.services, written[x].name), n))
    && (forall x | x in written && !IsNamedHere(written[x], s.repo, s.findings.services)
          :: x in before && written[x] == CarriedService(before[x], s, n))
    && (forall x | x in before
          :: x in written && written[x].repo == before[x].repo && written[x].name == before[x].name)
    && (forall name :: Named(s.findings.services, name) ==> HasService(written, s.repo, name))
  }

  lemma ServicesWhenWritten(db: Tables, s: Scan, d1: Tables, d2: Tables, st: Stored, d4: Tables)
    requires Stages(db, s, d1, d2, st, d4)
    ensures d4.services == d2.services
    ensures Written(db.services, d2.services, s, db.nextVersion)
  {
    forall x | x in d1.services
      ensures d2.services[x].repo == d1.services[x].repo && d2.services[x].name == d1.services[x].name
    {
      RewrittenKeepsName(d1.services[x], s.repo, s.findings.services, db.nextVersion);
    }
    hide ConnectionsPersisted, OnlyAddsSchemas;
  }

  ghost predicate ExactlyTheFindings(before: map<nat, Service>, after: map<nat, Service>, s: Scan, n: nat) {
    var fs := s.findings.services;
    && (forall name :: HasService(after, s.repo, name) <==> Named(fs, name))
    && (forall x :: x in after && after[x].repo == s.repo ==>
          Named(fs, after[x].name) && after[x] == ServiceRow(s.repo, LastNamed(fs, after[x].name), n)
          && IsFound(after[x], s.repo, fs, n))
    && (forall x :: x in before && IsNamedHere(before[x], s.repo, fs) ==> IsService(after, x, s.repo, before[x].name))
  }

  lemma FoundAreCurrent(before: map<nat, Service>, written: map<nat, Service>, s: Scan, n: nat)
    requires s.mode.Full? && Written(before, written, s, n)
    requires forall x :: x in before ==> before[x].version != Some(n)
    ensures forall x :: x in Current(written, s.repo, n) <==>
              x in written && (written[x].repo == s.repo ==> IsNamedHere(written[x], s.repo, s.findings.services))
  {
    hide LastNamed;
    assert forall x | x in written && !IsNamedHere(written[x], s.repo, s.findings.services)
           :: written[x].version != Some(n);
  }

  lemma CurrentServicesAreTheFindings(before: map<nat, Service>, written: map<nat, Service>, after: map<nat, Service>,
                                      s: Scan, n: nat)
    requires s.mode.Full? && Written(before, written, s, n)
    requires forall x :: x in before ==> before[x].version != Some(n)
    requires forall x :: x in after <==> x in Current(written, s.repo, n)
    requires forall x :: x in after ==> after[x] == written[x]
    ensures ExactlyTheFindings(before, after, s, n)
  {
    hide ServiceRow, CarriedService, LastNamed, Current, IsFound;
    FoundAreCurrent(before, written, s, n);
    var fs := s.findings.services;
    forall x | x in written && IsNamedHere(written[x], s.repo, fs) ensures IsFound(written[x], s.repo, fs, n) {
      NamedRow(before, written, s, n, x);
    }
    forall x | x in before && IsNamedHere(before[x], s.repo, fs) ensures IsService(after, x, s.repo, before[x].name) {
      assert IsNamedHere(written[x], s.repo, fs);
    }
    forall name | Named(fs, name) ensures HasService(after, s.repo, name) {
      var x :| IsService(written, x, s.repo, name);
      assert IsNamedHere(written[x], s.repo, fs) && IsService(after, x, s.repo, name);
    }
  }

  // With no override pending, a full scan leaves the repo with exactly the services its findings name,
  // each with the columns of its last finding and, if it was there before, its old id.
  lemma FullScanLeavesExactlyTheFindings(db: Tables, s: Scan)
    requires Settled(db) && NoPending(db) && s.mode.Full? && WriteTx(db, s).Done?
    ensures ExactlyTheFindings(db.services, WriteTx(db, s).value.services, s, db.nextVersion)
  {
    var d1, d2, st, d4 := StagesOfAScan(db, s);
    ServicesWhenWritten(db, s, d1, d2, st, d4);
    forall x | x in db.services ensures db.services[x].version != Some(db.nextVersion) {
      OldVersionsAreOld(db, x);
    }
    var after := WriteTx(db, s).value;
    hide WriteTx, Settled, Written, ExactlyTheFindings, WellFormed, NoPending;
    EndScanServices(d4, s.repo, db.nextVersion, s.now);
    hide EndScanResult, Stages, Current;
    CurrentServicesAreTheFindings(db.services, d2.services, after.services, s, db.nextVersion);
  }

  lemma EndScanServices(db: Tables, repo: nat, n: nat, now: int)
    requires n in db.versions
    ensures var after := EndScanResult(db, repo, n, now).services;
            (forall x :: x in after <==> x in Current(db.services, repo, n))
            && (forall x :: x in after ==> after[x] == db.services[x])
  {
  }

  lemma OldVersionsAreOld(db: Tables, x: nat)
    requires Settled(db) && x in db.services
    ensures db.services[x].version != Some(db.nextVersion)
  {
    assert Stamped(db.services[x], db.versions);
  }

  lemma WrittenServicesAreCurrent(before: map<nat, Service>, written: map<nat, Service>, s: Scan, n: nat)
    requires s.mode.Incremental? && Written(before, written, s, n)
    ensures Current(written, s.repo, n) == written.Keys
  {
    forall x | x in written && written[x].repo == s.repo ensures written[x].version == Some(n) {
      if !IsNamedHere(written[x], s.repo, s.findings.services) {
        assert written[x] == CarriedService(before[x], s, n);
      }
    }
  }

  lemma EverythingCurrentStays(db: Tables, repo: nat, n: nat, now: int)
    requires WellFormed(db) && n in db.versions && Current(db.services, repo, n) == db.services.Keys
    ensures EndScanResult(db, repo, n, now).services == db.services
    ensures EndScanResult(db, repo, n, now).connections == db.connections
  {
    hide Current;
    assert Among(db.connections, db.services.Keys) == db.connections;
  }

  // An incremental scan loses no service in the transaction: all of the repo's rows carry scan n.
  lemma IncrementalTxKeepsServices(db: Tables, s: Scan, d1: Tables, d2: Tables, st: Stored, d4: Tables)
    requires s.mode.Incremental? && WellFormed(d4) && Stages(db, s, d1, d2, st, d4)
    ensures var after := EndScanResult(d4, s.repo, db.nextVersion, s.now);
            after.services == d2.services && after.connections == st.db.connections
  {
    ServicesWhenWritten(db, s, d1, d2, st, d4);
    WrittenServicesAreCurrent(db.services, d2.services, s, db.nextVersion);
    EverythingCurrentStays(d4, s.repo, db.nextVersion, s.now);
    hide ServicesPersisted, ConnectionsPersisted, Carried, EndScanResult, Written, Current, WellFormed;
  }

  // The row is defined in a file that was deleted or renamed away.
  ghost predicate Leaves(s: Scan, row: Service) {
    DefinedIn(row, s.repo, s.deleted)
  }

  // The last finding of the name cites a deleted file.
  ghost predicate FoundInDeleted(s: Scan, name: string) {
    Named(s.findings.services, name)
    && LastNamed(s.findings.services, name).sourceFile != ""
    && LastNamed(s.findings.services, name).sourceFile in s.deleted
  }

  ghost predicate TheRestIsKept(before: map<nat, Service>, after: map<nat, Service>, s: Scan, n: nat) {
    var fs := s.findings.services;
    && (forall x :: x in before && before[x].repo == s.repo && !Named(fs, before[x].name) ==>
          if Leaves(s, before[x]) then x !in after else x in after && after[x] == before[x].(version := Some(n)))
    && (forall x :: x in before && IsNamedHere(before[x], s.repo, fs) ==>
          if FoundInDeleted(s, before[x].name) then x !in after
          else IsService(after, x, s.repo, before[x].name) && IsFound(after[x], s.repo, fs, n))
    && (forall x :: x in after && x !in before ==>
          IsFound(after[x], s.repo, fs, n) && !FoundInDeleted(s, after[x].name))
    && (forall name :: Named(fs, name) && !FoundInDeleted(s, name) ==> HasService(after, s.repo, name))
  }

  lemma CleanedUpServicesAreTheRest(before: map<nat, Service>, written: map<nat, Service>, after: map<nat, Service>,
                                    s: Scan, n: nat)
    requires s.mode.Incremental? && Written(before, written, s, n)
    requires forall x :: x in after <==> x in written && !Leaves(s, written[x])
    requires forall x :: x in after ==> after[x] == written[x]
    ensures TheRestIsKept(before, after, s, n)
  {
    hide LastNamed, ServiceRow, IsFound, FoundInDeleted, Named, Leaves;
    var fs := s.findings.services;
    assert forall x :: x in before ==> (IsNamedHere(before[x], s.repo, fs) <==> IsNamedHere(written[x], s.repo, fs));
    forall x | x in written && IsNamedHere(written[x], s.repo, fs)
      ensures IsFound(written[x], s.repo, fs, n)
      ensures Leaves(s, written[x]) <==> FoundInDeleted(s, written[x].name)
    {
      NamedRow(before, written, s, n, x);
    }
    forall name | Named(fs, name) && !FoundInDeleted(s, name) ensures HasService(after, s.repo, name) {
      var x :| IsService(written, x, s.repo, name);
      assert IsNamedHere(written[x], s.repo, fs) && IsService(after, x, s.repo, name);
    }
    forall x | x in before && before[x].repo == s.repo && !Named(fs, before[x].name)
      ensures Leaves(s, written[x]) <==> Leaves(s, before[x])
    {
      CarriedLeaves(before, written, s, n, x);
    }
  }

  lemma NamedRow(before: map<nat, Service>, written: map<nat, Service>, s: Scan, n: nat, x: nat)
    requires Written(before, written, s, n) && x in written && IsNamedHere(written[x], s.repo, s.findings.services)
    ensures IsFound(written[x], s.repo, s.findings.services, n)
    ensures Leaves(s, written[x]) <==> FoundInDeleted(s, written[x].name)
  {
    hide LastNamed, IsFound;
    WrittenIsFound(s.repo, s.findings.services, written[x].name, n);
  }

  lemma CarriedLeaves(before: map<nat, Service>, written: map<nat, Service>, s: Scan, n: nat, x: nat)
    requires Written(before, written, s, n) && x in before && !IsNamedHere(before[x], s.repo, s.findings.services)
    ensures Leaves(s, written[x]) <==> Leaves(s, before[x])
  {
    hide LastNamed, Named;
  }

  // With no override pending, an incremental scan that returns leaves the old services and the
  // findings' services, less those whose source_file was deleted or renamed away. A service the
  // findings do not name keeps its id and every column but the version.
  lemma IncrementalScanKeepsServices(db: Tables, s: Scan, db': Tables)
    requires Settled(db) && NoPending(db) && s.mode.Incremental? && Returns(db, s, db')
    ensures TheRestIsKept(db.services, db'.services, s, db.nextVersion)
  {
    var d1, d2, st, d4 := StagesOfAScan(db, s);
    IncrementalTxKeepsServices(db, s, d1, d2, st, d4);
    ServicesWhenWritten(db, s, d1, d2, st, d4);
    CleanupOfAScan(db, s, db');
    hide WriteTx, Returns, Stages, Settled, NoPending, WellFormed, Written, TheRestIsKept, EndScanResult;
    CleanedUpServicesAreTheRest(db.services, d2.services, db'.services, s, db.nextVersion);
  }

  lemma CleanupOfAScan(db: Tables, s: Scan, db': Tables)
    requires Settled(db) && s.mode.Incremental? && Returns(db, s, db')
    ensures FilesDeleted(WriteTx(db, s).value, db', s.repo, s.deleted)
    ensures db' == WriteTx(db, s).value.(services := db'.services, connections := db'.connections)
  {
    WriteTxSettles(db, s);
    var r := WriteTx(db, s).value;
    var budget: nat :| AfterCleanup(r, s, budget).ok && AfterCleanup(r, s, budget).db == db';
    hide WriteTx;
    DeleteFilesEffect(Progress(r, budget, true), s.repo, s.deleted);
    DeleteFilesKeepsIntegrity(Progress(r, budget, true), s.repo, s.deleted);
  }

  // ---------------------------------------------------------------- connections

  // A row of before is in after up to its version, untouched if another repo owns it, or a new row
  // has its concrete key.
  ghost predicate KeptConnection(db: Tables, s: Scan, after: map<nat, Connection>, c: nat)
    requires c in db.connections
  {
    var row := db.connections[c];
    if c in after then SameButVersion(after[c], row) && (!Owned(db, row, s.repo) ==> after[c] == row)
    else Concrete(KeyOf(row)) && HasNewRow(db.connections, after, KeyOf(row))
  }

  lemma ConnectionsWhenWritten(db: Tables, s: Scan, d1: Tables, d2: Tables, st: Stored, d4: Tables, c: nat)
    requires Stages(db, s, d1, d2, st, d4) && c in db.connections
    ensures KeptConnection(db, s, st.db.connections, c)
  {
    hide ServicesPersisted, OnlyAddsSchemas, IsStored, HasNewRow;
    assert KeyOf(d1.connections[c]) == KeyOf(db.connections[c]);
    assert d2.connections == d1.connections;
    assert KeptOrReplaced(d2, st.db.connections, c, s.repo, s.findings.connections, s.findings.rejected);
    if c !in st.db.connections {
      assert HasNewRow(d2.connections, st.db.connections, KeyOf(d2.connections[c]));
      SameKeysSameNewRows(db.connections, d2.connections, st.db.connections, KeyOf(d2.connections[c]));
    }
  }

  lemma SameKeysSameNewRows(before: map<nat, Connection>, before': map<nat, Connection>, after: map<nat, Connection>,
                            k: Key)
    requires before.Keys == before'.Keys && HasNewRow(before', after, k)
    ensures HasNewRow(before, after, k)
  {
    var c :| c !in before' && HasKey(after, c, k);
    assert c !in before;
  }

  // A connection between two services that survive is kept, up to its version, unless a stored
  // finding with the same concrete key replaced it, under a new id.
  lemma IncrementalScanKeepsConnections(db: Tables, s: Scan, db': Tables, c: nat)
    requires Settled(db) && NoPending(db) && s.mode.Incremental? && Returns(db, s, db')
    requires c in db.connections && db.connections[c].source in db'.services && db.connections[c].target in db'.services
    ensures KeptConnection(db, s, db'.connections, c)
  {
    var d1, d2, st, d4 := StagesOfAScan(db, s);
    IncrementalTxKeepsServices(db, s, d1, d2, st, d4);
    CleanupOfAScan(db, s, db');
    ConnectionsWhenWritten(db, s, d1, d2, st, d4, c);
    hide WriteTx, Returns, Settled, NoPending, WellFormed, EndScanResult, Stages, DefinedIn, KeptConnection, Among;
    KeptAmongSurvivors(db, s, st.db.connections, db'.services.Keys, c);
  }

  lemma KeptAmongSurvivors(db: Tables, s: Scan, mid: map<nat, Connection>, survivors: set<nat>, c: nat)
    requires c in db.connections && KeptConnection(db, s, mid, c)
    requires db.connections[c].source in survivors && db.connections[c].target in survivors
    ensures KeptConnection(db, s, Among(mid, survivors), c)
  {
    var k := KeyOf(db.connections[c]);
    if c !in mid {
      var c' :| c' !in db.connections && HasKey(mid, c', k);
      assert HasKey(Among(mid, survivors), c', k);
    }
  }
}
