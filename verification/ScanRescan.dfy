// Running the same full scan twice: ids, concrete keys and path templates are stable; and what a finding that
// lands on a connection with a schema does to a scan.
module ScanRescan {
  import opened Common
  import opened ScanTables
  import opened ScanPipeline
  import opened PathTemplates
  import opened ScanIntegrity
  import opened ScanRuns
  import opened ScanEffects
  import opened ScanTheorems
  import opened ScanIsolation

  // ---------------------------------------------------------------- templates through the fold

  // The raw paths of the stored findings with this key, in order.
  function RawPaths(db: Tables, repo: nat, cs: seq<ConnectionFinding>, rejected: set<nat>, k: Key): seq<string> {
    if cs == [] then []
    else
      var last := |cs| - 1;
      RawPaths(db, repo, cs[..last], rejected, k)
      + (if StoredKey(db, repo, cs, rejected, last) == Some(k) then [cs[last].path] else [])
  }

  lemma FindTemplateOfRow(connections: map<nat, Connection>, bound: nat, k: Key, c: nat)
    requires UniqueKeys(connections) && Concrete(k) && HasKey(connections, c, k) && c < bound
    ensures FindTemplate(connections, bound, k) == connections[c].pathTemplate
  {
    var id: nat :| id < bound && HasKey(connections, id, k)
        && FindTemplate(connections, bound, k) == connections[id].pathTemplate;
  }

  lemma UpsertKeepsOtherTemplates(db: Tables, row: Connection, k: Key)
    requires WellFormed(db) && UpsertConnection(db, row).Done? && Concrete(k) && k != KeyOf(row)
    ensures var after := UpsertConnection(db, row).value;
            FindTemplate(after.connections, after.nextConnection, k)
                == FindTemplate(db.connections, db.nextConnection, k)
  {
    UpsertConnectionKeepsIntegrity(db, row);
    var after := UpsertConnection(db, row).value;
    assert forall c: nat :: HasKey(db.connections, c, k) <==> HasKey(after.connections, c, k);
    if c: nat :| HasKey(db.connections, c, k) {
      FindTemplateOfRow(db.connections, db.nextConnection, k, c);
      FindTemplateOfRow(after.connections, after.nextConnection, k, c);
    }
  }

  lemma UpsertWritesTemplate(db: Tables, row: Connection)
    requires WellFormed(db) && UpsertConnection(db, row).Done? && Concrete(KeyOf(row))
    ensures var after := UpsertConnection(db, row).value;
            FindTemplate(after.connections, after.nextConnection, KeyOf(row)) == row.pathTemplate
  {
    UpsertConnectionKeepsIntegrity(db, row);
    var after := UpsertConnection(db, row).value;
    assert HasKey(after.connections, db.nextConnection, KeyOf(row));
    FindTemplateOfRow(after.connections, after.nextConnection, KeyOf(row), db.nextConnection);
  }

  // The template of a concrete key after the findings is the old one with their raw paths merged in.
  lemma {:induction false} TemplateAfterFindings(db: Tables, repo: nat, cs: seq<ConnectionFinding>, rejected: set<nat>,
                                                 n: nat, k: Key)
    requires WellFormed(db) && PersistConnections(db, repo, cs, rejected, n).Done? && Concrete(k)
    ensures var after := PersistConnections(db, repo, cs, rejected, n).value.db;
            FindTemplate(after.connections, after.nextConnection, k)
            == MergeAll(FindTemplate(db.connections, db.nextConnection, k), RawPaths(db, repo, cs, rejected, k))
  {
    if cs != [] {
      var last := |cs| - 1;
      TemplateAfterFindings(db, repo, cs[..last], rejected, n, k);
      PersistConnectionsKeepsIntegrity(db, repo, cs[..last], rejected, n);
      var st := PersistConnections(db, repo, cs[..last], rejected, n).value;
      FindingMerges(db, st, repo, cs, rejected, n, k);
      hide PersistConnection, FindTemplate, WellFormed, MergePathTemplates, StoredKey;
      var t, earlier := FindTemplate(db.connections, db.nextConnection, k), RawPaths(db, repo, cs[..last], rejected, k);
      MergeOneMore(t, earlier, cs[last].path);
    }
  }

  lemma FindingMerges(db: Tables, st: Stored, repo: nat, cs: seq<ConnectionFinding>, rejected: set<nat>, n: nat, k: Key)
    requires cs != [] && st.db.services == db.services && st.db.nextService == db.nextService
    requires WellFormed(st.db) && PersistConnection(st, repo, cs[|cs| - 1], |cs| - 1, rejected, n).Done? && Concrete(k)
    ensures var st' := PersistConnection(st, repo, cs[|cs| - 1], |cs| - 1, rejected, n).value;
            var before := FindTemplate(st.db.connections, st.db.nextConnection, k);
            FindTemplate(st'.db.connections, st'.db.nextConnection, k)
            == if StoredKey(db, repo, cs, rejected, |cs| - 1) == Some(k)
               then MergePathTemplates(before, Some(cs[|cs| - 1].path)) else before
  {
    var last := |cs| - 1;
    StoredKeyOfRow(db, st, repo, cs, rejected, last, n);
    var key := StoredKey(db, repo, cs, rejected, last);
    var st' := PersistConnection(st, repo, cs[last], last, rejected, n).value;
    assert key == Some(k) ==> OrNull(cs[last].path) == Some(cs[last].path);
    hide PersistConnection, WellFormed, MergePathTemplates, StoredKey, FindTemplate;
    if key.Some? {
      var row :| RowFor(st, row, key.value, cs[last], n) && UpsertConnection(st.db, row) == Done(st'.db);
      hide UpsertConnection;
      if key.value == k {
        UpsertWritesTemplate(st.db, row);
      } else {
        UpsertKeepsOtherTemplates(st.db, row, k);
      }
    }
  }

  lemma MergeOneMore(t: Option<string>, paths: seq<string>, path: string)
    ensures MergeAll(t, paths + [path]) == MergePathTemplates(MergeAll(t, paths), Some(path))
    ensures paths + [] == paths
  {
    assert (paths + [path])[..|paths|] == paths;
  }

  lemma {:induction false} RawPathsAreClean(db: Tables, repo: nat, cs: seq<ConnectionFinding>, rejected: set<nat>,
                                            k: Key)
    requires Concrete(k) && CleanPaths(cs)
    ensures AllClean(RawPaths(db, repo, cs, rejected, k))
  {
    if cs != [] {
      var last := |cs| - 1;
      assert forall j :: 0 <= j < last ==> cs[..last][j] == cs[j];
      RawPathsAreClean(db, repo, cs[..last], rejected, k);
      hide AllClean, Clean;
      if StoredKey(db, repo, cs, rejected, last) == Some(k) {
        assert cs[last].path != "";
        AppendClean(RawPaths(db, repo, cs[..last], rejected, k), cs[last].path);
      }
    }
  }

  lemma AppendClean(paths: seq<string>, path: string)
    requires AllClean(paths) && Clean(path)
    ensures AllClean(paths + [path])
  {
  }

  // Comma-free, trimmed paths; a missing path is "".
  ghost predicate CleanPaths(cs: seq<ConnectionFinding>) {
    forall j :: 0 <= j < |cs| && cs[j].path != "" ==> Clean(cs[j].path)
  }

  // ---------------------------------------------------------------- the same names, the same keys

  ghost predicate SameIds(a: Tables, b: Tables, repo: nat, fs: seq<ServiceFinding>) {
    forall x: nat, name | Named(fs, name) :: IsService(a.services, x, repo, name)
        <==> IsService(b.services, x, repo, name)
  }

  lemma SameIdsResolveAlike(a: Tables, b: Tables, repo: nat, fs: seq<ServiceFinding>, name: string)
    requires WellFormed(a) && WellFormed(b) && SameIds(a, b, repo, fs) && Named(fs, name)
    requires HasService(a.services, repo, name)
    ensures Resolve(a, repo, name) == Resolve(b, repo, name)
  {
    NamedResolvesHere(a, repo, name);
    var x := Resolve(a, repo, name).value;
    assert IsService(b.services, x, repo, name);
    NamedResolvesHere(b, repo, name);
  }

  lemma SameIdsSameKeys(a: Tables, b: Tables, repo: nat, f: Findings, j: nat)
    requires WellFormed(a) && WellFormed(b) && SameIds(a, b, repo, f.services) && Closed(f) && j < |f.connections|
    requires forall name :: Named(f.services, name) ==> HasService(a.services, repo, name)
    ensures StoredKey(a, repo, f.connections, f.rejected, j) == StoredKey(b, repo, f.connections, f.rejected, j)
  {
    SameIdsResolveAlike(a, b, repo, f.services, f.connections[j].source);
    SameIdsResolveAlike(a, b, repo, f.services, f.connections[j].target);
  }

  lemma {:induction false} SameKeysSameRawPaths(a: Tables, b: Tables, repo: nat, cs: seq<ConnectionFinding>,
                                                rejected: set<nat>, k: Key)
    requires forall j: nat :: j < |cs| ==> StoredKey(a, repo, cs, rejected, j) == StoredKey(b, repo, cs, rejected, j)
    ensures RawPaths(a, repo, cs, rejected, k) == RawPaths(b, repo, cs, rejected, k)
  {
    if cs != [] {
      var last := |cs| - 1;
      forall j: nat | j < last
        ensures StoredKey(a, repo, cs[..last], rejected, j) == StoredKey(b, repo, cs[..last], rejected, j)
      {
        assert cs[..last][j] == cs[j];
        assert StoredKey(a, repo, cs, rejected, j) == StoredKey(b, repo, cs, rejected, j);
      }
      SameKeysSameRawPaths(a, b, repo, cs[..last], rejected, k);
    }
  }

  // ---------------------------------------------------------------- one scan, key by key

  // After a scan of closed findings: every stored concrete key has its row, whose template is the
  // old one with the raw paths merged in; the services it was resolved against are still there.
  ghost predicate KeysOfScan(db: Tables, d2: Tables, after: Tables, s: Scan) {
    var f := s.findings;
    && WellFormed(d2)
    && SameIds(d2, after, s.repo, f.services)
    && (forall x: nat, name | Named(f.services, name) :: IsService(db.services, x, s.repo, name) ==>
        IsService(d2.services, x, s.repo, name))
    && (forall name :: Named(f.services, name) ==> HasService(d2.services, s.repo, name))
    && (forall k | Concrete(k) && IsStored(d2, s.repo, f.connections, f.rejected, k) ::
          HasRow(after.connections, k)
          && FindTemplate(after.connections, after.nextConnection, k)
             == MergeAll(FindTemplate(db.connections, db.nextConnection, k),
                         RawPaths(d2, s.repo, f.connections, f.rejected, k)))
  }

  ghost predicate HasRow(connections: map<nat, Connection>, k: Key) {
    exists c: nat :: HasKey(connections, c, k)
  }

  lemma WrittenNamesStay(d2: Tables, after: Tables, s: Scan, n: nat)
    requires forall x | x in d2.services && IsNamedHere(d2.services[x], s.repo, s.findings.services)
               :: d2.services[x].version == Some(n)
    requires forall x :: x in after.services <==> x in Current(d2.services, s.repo, n)
    requires forall x :: x in after.services ==> after.services[x] == d2.services[x]
    ensures SameIds(d2, after, s.repo, s.findings.services)
  {
    forall x: nat, name | Named(s.findings.services, name)
      ensures IsService(d2.services, x, s.repo, name) <==> IsService(after.services, x, s.repo, name)
    {
      if IsService(d2.services, x, s.repo, name) {
        assert IsNamedHere(d2.services[x], s.repo, s.findings.services);
      }
    }
  }

  lemma StoredRowSurvives(d4: Tables, after: Tables, k: Key, kept: set<nat>)
    requires UniqueKeys(d4.connections) && IdsBelow(d4.connections, d4.nextConnection)
    requires Concrete(k) && HasRow(d4.connections, k) && k.source in kept && k.target in kept
    requires after.connections == Among(d4.connections, kept) && after.nextConnection == d4.nextConnection
    ensures HasRow(after.connections, k)
    ensures FindTemplate(after.connections, after.nextConnection, k)
            == FindTemplate(d4.connections, d4.nextConnection, k)
  {
    var c: nat :| HasKey(d4.connections, c, k);
    assert HasKey(after.connections, c, k);
    assert UniqueKeys(after.connections);
    FindTemplateOfRow(d4.connections, d4.nextConnection, k, c);
    FindTemplateOfRow(after.connections, after.nextConnection, k, c);
  }

  lemma StoredKeyAfterScan(d2: Tables, st: Stored, d4: Tables, after: Tables, repo: nat, f: Findings, n: nat, k: Key)
    requires WellFormed(d2) && WellFormed(d4) && Closed(f)
    requires forall name :: Named(f.services, name) ==> HasService(d2.services, repo, name)
    requires forall x | x in d2.services
             && IsNamedHere(d2.services[x], repo, f.services) :: d2.services[x].version == Some(n)
    requires PersistConnections(d2, repo, f.connections, f.rejected, n) == Done(st)
    requires AllStored(d2, st.db.connections, repo, f.connections, f.rejected)
    requires d4.connections == st.db.connections && d4.nextConnection == st.db.nextConnection
             && d4.services == d2.services
    requires after.connections == Among(d4.connections, Current(d4.services, repo, n))
             && after.nextConnection == d4.nextConnection
    requires Concrete(k) && IsStored(d2, repo, f.connections, f.rejected, k)
    ensures HasRow(after.connections, k)
    ensures FindTemplate(after.connections, after.nextConnection, k)
            == MergeAll(FindTemplate(d2.connections, d2.nextConnection, k),
                        RawPaths(d2, repo, f.connections, f.rejected, k))
  {
    StoredKeysAreOwn(d2, repo, f, k);
    TemplateAfterFindings(d2, repo, f.connections, f.rejected, n, k);
    assert UniqueKeys(d4.connections) && IdsBelow(d4.connections, d4.nextConnection);
    hide WellFormed, Closed, IsStored, PersistConnections, RawPaths, FindTemplate, Among;
    assert HasNewRow(d2.connections, st.db.connections, k);
    RowOfNewRow(d2.connections, d4.connections, d4.nextConnection, k);
    StoredRowSurvives(d4, after, k, Current(d4.services, repo, n));
  }

  lemma RowOfNewRow(before: map<nat, Connection>, after: map<nat, Connection>, next: nat, k: Key)
    requires HasNewRow(before, after, k) && IdsBelow(after, next)
    ensures HasRow(after, k)
  {
    var c :| c !in before && HasKey(after, c, k);
    var id: nat := c;
    assert HasKey(after, id, k);
  }

  // What the stages of a scan have in common with the tables before and after it.
  ghost predicate KeyStages(db: Tables, d2: Tables, st: Stored, d4: Tables, after: Tables, s: Scan) {
    var n, f := db.nextVersion, s.findings;
    && WellFormed(d2) && WellFormed(d4)
    && SameTemplates(db, d2)
    && Written(db.services, d2.services, s, n)
    && PersistConnections(d2, s.repo, f.connections, f.rejected, n) == Done(st)
    && AllStored(d2, st.db.connections, s.repo, f.connections, f.rejected)
    && d4.connections == st.db.connections && d4.nextConnection == st.db.nextConnection && d4.services == d2.services
    && after.connections == Among(d4.connections, Current(d4.services, s.repo, n))
    && after.nextConnection == d4.nextConnection
    && (forall x :: x in after.services <==> x in Current(d2.services, s.repo, n))
    && (forall x :: x in after.services ==> after.services[x] == d2.services[x])
  }

  ghost predicate SameTemplates(a: Tables, b: Tables) {
    forall k :: FindTemplate(b.connections, b.nextConnection, k) == FindTemplate(a.connections, a.nextConnection, k)
  }

  lemma CarriedKeys(before: map<nat, Connection>, carried: map<nat, Connection>, k: Key)
    requires carried.Keys == before.Keys && forall c :: c in before ==> SameButVersion(carried[c], before[c])
    ensures forall c: nat :: HasKey(carried, c, k) <==> HasKey(before, c, k)
    ensures forall c: nat :: c in before ==> carried[c].pathTemplate == before[c].pathTemplate
  {
  }

  lemma {:induction false} TemplatesCarry(before: map<nat, Connection>, carried: map<nat, Connection>, bound: nat,
                                          k: Key)
    requires carried.Keys == before.Keys
    requires forall c: nat :: HasKey(carried, c, k) <==> HasKey(before, c, k)
    requires forall c: nat :: c in before ==> carried[c].pathTemplate == before[c].pathTemplate
    ensures FindTemplate(carried, bound, k) == FindTemplate(before, bound, k)
  {
    hide KeyOf;
    if bound > 0 {
      TemplatesCarry(before, carried, bound - 1, k);
    }
  }

  // Restamping changes no path template.
  lemma CarriedTemplates(db: Tables, d1: Tables, s: Scan)
    requires Carried(db, d1, s)
    ensures SameTemplates(db, d1)
  {
    hide FindTemplate, HasKey, SameButVersion;
    forall k ensures FindTemplate(d1.connections, d1.nextConnection, k)
        == FindTemplate(db.connections, db.nextConnection, k) {
      CarriedKeys(db.connections, d1.connections, k);
      TemplatesCarry(db.connections, d1.connections, db.nextConnection, k);
    }
  }

  lemma TemplatesAtServices(db: Tables, s: Scan, d1: Tables, d2: Tables, st: Stored, d4: Tables)
    requires Stages(db, s, d1, d2, st, d4)
    ensures SameTemplates(db, d2)
  {
    hide Carried, ServicesPersisted, ConnectionsPersisted, AllStored, OnlyAddsSchemas, FindTemplate;
    CarriedTemplates(db, d1, s);
  }

  lemma StagesByKey(db: Tables, s: Scan) returns (d2: Tables, st: Stored, d4: Tables)
    requires Settled(db) && NoPending(db) && WriteTx(db, s).Done?
    ensures KeyStages(db, d2, st, d4, WriteTx(db, s).value, s)
  {
    hide Counters, UniqueNames, NoDangling, UniqueKeys, SchemasOwned, FieldsOwned, ServicesRefer, StampsRefer,
         WriteTx, ServicesPersisted, ConnectionsPersisted, AllStored, SameTemplates, Carried;
    var d1;
    d1, d2, st, d4 := StagesOfAScan(db, s);
    ServicesWhenWritten(db, s, d1, d2, st, d4);
    EndScanServices(d4, s.repo, db.nextVersion, s.now);
    TemplatesAtServices(db, s, d1, d2, st, d4);
    hide WellFormed, PersistConnections, PersistSchemas, NoPending, Settled, Written, Current, Among, Carried;
  }

  lemma WrittenVersions(db: Tables, d2: Tables, st: Stored, d4: Tables, after: Tables, s: Scan)
    requires KeyStages(db, d2, st, d4, after, s)
    ensures forall x | x in d2.services && IsNamedHere(d2.services[x], s.repo, s.findings.services)
              :: d2.services[x].version == Some(db.nextVersion)
    ensures forall name :: Named(s.findings.services, name) ==> HasService(d2.services, s.repo, name)
    ensures forall x: nat, name | Named(s.findings.services, name)
              :: IsService(db.services, x, s.repo, name) ==> IsService(d2.services, x, s.repo, name)
  {
    hide WellFormed, PersistConnections, AllStored, Among, Current;
  }

  lemma ScanKeyByKey(db: Tables, s: Scan) returns (d2: Tables)
    requires Settled(db) && NoPending(db) && Closed(s.findings) && WriteTx(db, s).Done?
    ensures KeysOfScan(db, d2, WriteTx(db, s).value, s)
  {
    hide WriteTx, WellFormed, PersistConnections, Closed, NoPending, Settled, Current, Among, Written, AllStored;
    var st, d4;
    d2, st, d4 := StagesByKey(db, s);
    var n, after, f := db.nextVersion, WriteTx(db, s).value, s.findings;
    WrittenVersions(db, d2, st, d4, after, s);
    WrittenNamesStay(d2, after, s, n);
    hide SameIds, FindTemplate, RawPaths, IsStored, HasRow, IsNamedHere;
    forall k | Concrete(k) && IsStored(d2, s.repo, f.connections, f.rejected, k)
      ensures HasRow(after.connections, k)
      ensures FindTemplate(after.connections, after.nextConnection, k)
              == MergeAll(FindTemplate(db.connections, db.nextConnection, k),
                          RawPaths(d2, s.repo, f.connections, f.rejected, k))
    {
      StoredKeyAfterScan(d2, st, d4, after, s.repo, f, n, k);
    }
  }

  // ---------------------------------------------------------------- the same scan again

  ghost predicate SameScanAgain(s: Scan, s': Scan) {
    s'.repo == s.repo && s'.findings == s.findings && s'.mode == s.mode
  }

  lemma NothingPendingAfterwards(db: Tables, s: Scan)
    requires Settled(db) && NoPending(db) && WriteTx(db, s).Done?
    ensures NoPending(WriteTx(db, s).value)
  {
    var d1, d2, st, d4 := StagesOfAScan(db, s);
    hide WriteTx, Settled, WellFormed, ServicesPersisted, ConnectionsPersisted, AllStored, PersistConnections;
  }

  lemma ServiceRowsUpToVersion(repo: nat, n: nat, n': nat)
    ensures forall f: ServiceFinding :: ServiceRow(repo, f, n).(version := Some(n')) == ServiceRow(repo, f, n')
  {
  }

  lemma SameNameSameId(services: map<nat, Service>, a: nat, b: nat)
    requires UniqueNames(services) && a in services && b in services
    requires services[a].repo == services[b].repo && services[a].name == services[b].name
    ensures a == b
  {
  }

  ghost predicate SameServicesUpToVersion(a: map<nat, Service>, b: map<nat, Service>, repo: nat, n: nat) {
    && (forall x :: (x in a && a[x].repo == repo) <==> (x in b && b[x].repo == repo))
    && (forall x :: x in a && a[x].repo == repo ==> b[x] == a[x].(version := Some(n)))
  }

  lemma ExactlyTheFindingsTwice(before: map<nat, Service>, a: map<nat, Service>, b: map<nat, Service>, s: Scan,
                                s': Scan, n: nat, n': nat)
    requires SameScanAgain(s, s') && UniqueNames(b)
    requires ExactlyTheFindings(before, a, s, n) && ExactlyTheFindings(a, b, s', n')
    ensures SameServicesUpToVersion(a, b, s.repo, n')
  {
    hide LastNamed, Named, IsFound, UniqueNames, ServiceRow;
    ServiceRowsUpToVersion(s.repo, n, n');
    forall x | x in b && b[x].repo == s.repo ensures x in a && a[x].repo == s.repo {
      assert HasService(a, s.repo, b[x].name);
      var y: nat :| IsService(a, y, s.repo, b[x].name);
      assert IsNamedHere(a[y], s.repo, s.findings.services);
      SameNameSameId(b, x, y);
    }
  }

  // Re-running a full scan keeps every id of the repo's services, and every column but the version.
  lemma RerunKeepsServiceIds(db: Tables, s: Scan, s': Scan)
    requires Settled(db) && NoPending(db) && s.mode.Full? && SameScanAgain(s, s') && WriteTx(db, s).Done?
    requires WriteTx(WriteTx(db, s).value, s').Done?
    ensures var db1 := WriteTx(db, s).value;
            SameServicesUpToVersion(db1.services, WriteTx(db1, s').value.services, s.repo, db1.nextVersion)
  {
    var db1 := WriteTx(db, s).value;
    var db2 := WriteTx(db1, s').value;
    WriteTxSettles(db, s);
    WriteTxSettles(db1, s');
    NothingPendingAfterwards(db, s);
    FullScanLeavesExactlyTheFindings(db, s);
    FullScanLeavesExactlyTheFindings(db1, s');
    assert UniqueNames(db2.services);
    hide WriteTx, Settled, NoPending, ExactlyTheFindings, SameServicesUpToVersion, UniqueNames;
    ExactlyTheFindingsTwice(db.services, db1.services, db2.services, s, s', db.nextVersion, db1.nextVersion);
  }

  // Keys resolved against the tables a full scan left are the keys the scan stored.
  lemma KeysAsStored(db: Tables, d2: Tables, after: Tables, s: Scan, k: Key)
    requires KeysOfScan(db, d2, after, s) && WellFormed(after) && Closed(s.findings)
    ensures IsStored(after, s.repo, s.findings.connections, s.findings.rejected, k)
            <==> IsStored(d2, s.repo, s.findings.connections, s.findings.rejected, k)
    ensures RawPaths(after, s.repo, s.findings.connections, s.findings.rejected, k)
            == RawPaths(d2, s.repo, s.findings.connections, s.findings.rejected, k)
  {
    hide WellFormed, StoredKey, HasRow, FindTemplate, Closed;
    var f := s.findings;
    forall j: nat | j < |f.connections|
      ensures StoredKey(d2, s.repo, f.connections, f.rejected, j)
              == StoredKey(after, s.repo, f.connections, f.rejected, j)
    {
      SameIdsSameKeys(d2, after, s.repo, f, j);
    }
    SameKeysSameRawPaths(d2, after, s.repo, f.connections, f.rejected, k);
  }

  ghost predicate SharedIds(a: Tables, b: Tables, repo: nat) {
    && (forall x ::
          (x in a.services && a.services[x].repo == repo) <==> (x in b.services && b.services[x].repo == repo))
    && (forall x :: x in a.services && a.services[x].repo == repo ==> b.services[x].name == a.services[x].name)
  }

  lemma SharedIdsSameKeys(a: Tables, b: Tables, s: Scan, k: Key)
    requires WellFormed(a) && WellFormed(b) && SharedIds(a, b, s.repo) && Closed(s.findings)
    requires forall name :: Named(s.findings.services, name) ==> HasService(a.services, s.repo, name)
    ensures IsStored(a, s.repo, s.findings.connections, s.findings.rejected, k)
            <==> IsStored(b, s.repo, s.findings.connections, s.findings.rejected, k)
    ensures RawPaths(a, s.repo, s.findings.connections, s.findings.rejected, k)
            == RawPaths(b, s.repo, s.findings.connections, s.findings.rejected, k)
  {
    var f := s.findings;
    assert SameIds(a, b, s.repo, f.services);
    hide WellFormed, StoredKey, Closed, SharedIds;
    forall j: nat | j < |f.connections|
      ensures StoredKey(a, s.repo, f.connections, f.rejected, j) == StoredKey(b, s.repo, f.connections, f.rejected, j)
    {
      SameIdsSameKeys(a, b, s.repo, f, j);
    }
    SameKeysSameRawPaths(a, b, s.repo, f.connections, f.rejected, k);
  }

  lemma TemplatesTwice(db: Tables, d2: Tables, db1: Tables, d2': Tables, db2: Tables, s: Scan, s': Scan, k: Key)
    requires WellFormed(db1) && WellFormed(db2) && SameScanAgain(s, s') && SharedIds(db1, db2, s.repo)
    requires KeysOfScan(db, d2, db1, s) && KeysOfScan(db1, d2', db2, s')
    requires ExactlyTheFindings(db.services, db1.services, s, db.nextVersion)
    requires Closed(s.findings) && CleanPaths(s.findings.connections)
    requires Concrete(k) && IsStored(db1, s.repo, s.findings.connections, s.findings.rejected, k)
    ensures HasRow(db1.connections, k) && HasRow(db2.connections, k)
    ensures FindTemplate(db2.connections, db2.nextConnection, k) == FindTemplate(db1.connections, db1.nextConnection, k)
  {
    var f := s.findings;
    KeysAsStored(db, d2, db1, s, k);
    SharedIdsSameKeys(db1, db2, s, k);
    KeysAsStored(db1, d2', db2, s', k);
    var paths := RawPaths(db1, s.repo, f.connections, f.rejected, k);
    hide WellFormed, Closed, SharedIds, IsStored, RawPaths, FindTemplate, HasRow, SameIds, HasService, Named;
    RawPathsAreClean(db1, s.repo, f.connections, f.rejected, k);
    MergingAgainChangesNothing(FindTemplate(db.connections, db.nextConnection, k), paths);
  }

  // Re-running a full scan of closed findings with clean paths keeps, for every stored key with a method
  // and a path, its row (unique, by RunsStaySettled) and that row's path template.
  lemma RerunKeepsTemplates(db: Tables, s: Scan, s': Scan, k: Key)
    requires Settled(db) && NoPending(db) && s.mode.Full? && SameScanAgain(s, s')
    requires Closed(s.findings) && CleanPaths(s.findings.connections) && WriteTx(db, s).Done?
    requires WriteTx(WriteTx(db, s).value, s').Done?
    requires Concrete(k) && IsStored(WriteTx(db, s).value, s.repo, s.findings.connections, s.findings.rejected, k)
    ensures var db1 := WriteTx(db, s).value; var db2 := WriteTx(db1, s').value;
            && HasRow(db1.connections, k) && HasRow(db2.connections, k)
            && FindTemplate(db2.connections, db2.nextConnection, k)
                == FindTemplate(db1.connections, db1.nextConnection, k)
  {
    hide WriteTx, Settled, NoPending, WellFormed, Closed, KeysOfScan, ExactlyTheFindings, SameServicesUpToVersion,
         SharedIds, IsStored, HasRow, FindTemplate, CleanPaths;
    var db1 := WriteTx(db, s).value;
    var db2 := WriteTx(db1, s').value;
    WriteTxSettles(db, s);
    WriteTxSettles(db1, s');
    SettledIsWellFormed(db1);
    SettledIsWellFormed(db2);
    NothingPendingAfterwards(db, s);
    RerunKeepsServiceIds(db, s, s');
    SameServicesShareIds(db1, db2, s.repo, db1.nextVersion);
    var d2 := ScanKeyByKey(db, s);
    var d2' := ScanKeyByKey(db1, s');
    FullScanLeavesExactlyTheFindings(db, s);
    TemplatesTwice(db, d2, db1, d2', db2, s, s', k);
  }

  lemma SettledIsWellFormed(db: Tables)
    requires Settled(db)
    ensures WellFormed(db)
  {
  }

  lemma SameServicesShareIds(a: Tables, b: Tables, repo: nat, n: nat)
    requires SameServicesUpToVersion(a.services, b.services, repo, n)
    ensures SharedIds(a, b, repo)
  {
  }

  lemma {:induction false} StoredKeyHasRawPaths(db: Tables, repo: nat, cs: seq<ConnectionFinding>, rejected: set<nat>,
                                                k: Key, j: nat)
    requires j < |cs| && StoredKey(db, repo, cs, rejected, j) == Some(k)
    ensures RawPaths(db, repo, cs, rejected, k) != []
  {
    if j < |cs| - 1 {
      StoredInLonger(db, repo, cs, rejected);
      StoredKeyHasRawPaths(db, repo, cs[..|cs| - 1], rejected, k, j);
    }
  }

  // A key stored for the first time, in either mode, lists its distinct raw paths in first-seen order.
  lemma FirstTemplateIsFirstSeen(db: Tables, s: Scan, k: Key)
    requires Settled(db) && NoPending(db) && Closed(s.findings) && CleanPaths(s.findings.connections)
    requires WriteTx(db, s).Done? && Concrete(k) && !HasRow(db.connections, k)
    requires IsStored(WriteTx(db, s).value, s.repo, s.findings.connections, s.findings.rejected, k)
    ensures var after := WriteTx(db, s).value;
            var paths := RawPaths(after, s.repo, s.findings.connections, s.findings.rejected, k);
            paths != [] && FindTemplate(after.connections, after.nextConnection, k)
                == Some(Text.Join(FirstSeen(paths), ','))
  {
    var after, f := WriteTx(db, s).value, s.findings;
    WriteTxSettles(db, s);
    assert WellFormed(after);
    var d2 := ScanKeyByKey(db, s);
    hide WriteTx, Settled, NoPending, WellFormed, Closed;
    KeysAsStored(db, d2, after, s, k);
    assert FindTemplate(db.connections, db.nextConnection, k) == None by {
      assert forall c: nat :: !HasKey(db.connections, c, k);
    }
    var j :| 0 <= j < |f.connections| && StoredKey(after, s.repo, f.connections, f.rejected, j) == Some(k);
    StoredKeyHasRawPaths(after, s.repo, f.connections, f.rejected, k, j);
    RawPathsAreClean(after, s.repo, f.connections, f.rejected, k);
    hide IsStored, RawPaths, FindTemplate, HasRow, SameIds, StoredKey;
    FreshColumnIsFirstSeen(RawPaths(after, s.repo, f.connections, f.rejected, k));
  }

  // ---------------------------------------------------------------- rescans that cannot succeed

  lemma ConnectionWithSchemaStays(st: Stored, repo: nat, f: ConnectionFinding, j: nat, rejected: set<nat>, n: nat,
                                  c: nat)
    requires c in st.db.connections && c < st.db.nextConnection && HasSchema(st.db.schemas, {c})
    requires PersistConnection(st, repo, f, j, rejected, n).Done?
    ensures var after := PersistConnection(st, repo, f, j, rejected, n).value.db;
            c in after.connections && after.connections[c] == st.db.connections[c]
  {
  }

  lemma {:induction false} SchemaHoldsItsConnection(db: Tables, repo: nat, cs: seq<ConnectionFinding>,
                                                    rejected: set<nat>, n: nat, c: nat)
    requires WellFormed(db) && c in db.connections && HasSchema(db.schemas, {c})
    requires PersistConnections(db, repo, cs, rejected, n).Done?
    ensures var after := PersistConnections(db, repo, cs, rejected, n).value.db;
            c in after.connections && after.connections[c] == db.connections[c]
  {
    if cs != [] {
      var last := |cs| - 1;
      SchemaHoldsItsConnection(db, repo, cs[..last], rejected, n, c);
      PersistConnectionsKeepsIntegrity(db, repo, cs[..last], rejected, n);
      ConnectionWithSchemaStays(PersistConnections(db, repo, cs[..last], rejected, n).value, repo, cs[last], last,
                                rejected, n, c);
      hide PersistConnection, WellFormed;
    }
  }

  lemma SchemaBlocksTheLastKey(db: Tables, repo: nat, cs: seq<ConnectionFinding>, rejected: set<nat>, n: nat, c: nat)
    requires WellFormed(db) && c in db.connections && HasSchema(db.schemas, {c}) && cs != []
    requires Concrete(KeyOf(db.connections[c]))
             && StoredKey(db, repo, cs, rejected, |cs| - 1) == Some(KeyOf(db.connections[c]))
    ensures PersistConnections(db, repo, cs, rejected, n).Thrown?
  {
    var last := |cs| - 1;
    if PersistConnections(db, repo, cs[..last], rejected, n).Done? {
      SchemaHoldsItsConnection(db, repo, cs[..last], rejected, n, c);
      PersistConnectionsKeepsIntegrity(db, repo, cs[..last], rejected, n);
      var st := PersistConnections(db, repo, cs[..last], rejected, n).value;
      hide WellFormed, StoredKey;
      if PersistConnection(st, repo, cs[last], last, rejected, n).Done? {
        StoredKeyOfRow(db, st, repo, cs, rejected, last, n);
        hide PersistConnection;
        var row :| RowFor(st, row, KeyOf(db.connections[c]), cs[last], n) && UpsertConnection(st.db, row).Done?;
        HeldRowIsNotReplaced(st.db, row, c);
      }
    }
  }

  lemma HeldRowIsNotReplaced(db: Tables, row: Connection, c: nat)
    requires UpsertConnection(db, row).Done? && c in db.connections && HasSchema(db.schemas, {c})
    ensures !(Concrete(KeyOf(row)) && KeyOf(db.connections[c]) == KeyOf(row))
  {
    assert Concrete(KeyOf(row)) && KeyOf(db.connections[c]) == KeyOf(row) ==> c in Replaced(db.connections, KeyOf(row));
  }

  // A finding stored under the concrete key of a row that has a schema makes the fold throw.
  lemma {:induction false} SchemaBlocksItsKey(db: Tables, repo: nat, cs: seq<ConnectionFinding>, rejected: set<nat>,
                                              n: nat, c: nat, j: nat)
    requires WellFormed(db) && c in db.connections && HasSchema(db.schemas, {c}) && j < |cs|
    requires Concrete(KeyOf(db.connections[c]))
             && StoredKey(db, repo, cs, rejected, j) == Some(KeyOf(db.connections[c]))
    ensures PersistConnections(db, repo, cs, rejected, n).Thrown?
  {
    if j < |cs| - 1 {
      StoredInLonger(db, repo, cs, rejected);
      hide WellFormed, StoredKey, PersistConnection;
      SchemaBlocksItsKey(db, repo, cs[..|cs| - 1], rejected, n, c, j);
    } else {
      SchemaBlocksTheLastKey(db, repo, cs, rejected, n, c);
    }
  }

  // The finding names two services of the repo and lands on the row's concrete key.
  ghost predicate LandsOn(db: Tables, repo: nat, f: ConnectionFinding, row: Connection) {
    && IsService(db.services, row.source, repo, f.source) && IsService(db.services, row.target, repo, f.target)
    && Concrete(KeyOf(row)) && FindingKey(row.source, row.target, f) == KeyOf(row)
  }

  lemma LandingIsStored(d1: Tables, d2: Tables, s: Scan, row: Connection, n: nat, j: nat)
    requires WellFormed(d2)
             && ServicesPersisted(d1.services, d2.services, d1.nextService, s.repo, s.findings.services, n)
    requires j < |s.findings.connections| && j !in s.findings.rejected
             && LandsOn(d1, s.repo, s.findings.connections[j], row)
    ensures StoredKey(d2, s.repo, s.findings.connections, s.findings.rejected, j) == Some(KeyOf(row))
  {
    OldServiceResolves(d1, d2, s.repo, s.findings.services, n, row.source, s.findings.connections[j].source);
    OldServiceResolves(d1, d2, s.repo, s.findings.services, n, row.target, s.findings.connections[j].target);
    hide Resolve, WellFormed, ServicesPersisted;
  }

  lemma CarriedLandsOn(db: Tables, d1: Tables, s: Scan, f: ConnectionFinding, c: nat)
    requires Carried(db, d1, s) && c in db.connections && LandsOn(db, s.repo, f, db.connections[c])
    ensures c in d1.connections && LandsOn(d1, s.repo, f, d1.connections[c])
    ensures d1.schemas == db.schemas
  {
    assert KeyOf(d1.connections[c]) == KeyOf(db.connections[c]);
  }

  lemma BegunStage(db: Tables, s: Scan) returns (d1: Tables)
    requires Settled(db) && AfterBegin(db, s).Done?
    ensures AfterBegin(db, s).value == d1 && Carried(db, d1, s) && Scanning(d1, s.repo, db.nextVersion)
  {
    BeginningAScan(db, s);
    BegunIsScanning(db, s);
    RestampKeepsScanning(Begun(db, s), s.repo, db.nextVersion);
    d1 := AfterBegin(db, s).value;
    hide Restamp, BeginScan, Carried, Scanning, Settled;
    if s.mode.Incremental? { RestampCarriesAll(db, s); } else { BegunCarriesAll(db, s); }
  }

  // Re-scanning a repo always throws, in either mode, when a finding names two services the repo already
  // has and lands on the method and path of a connection between them that has a schema: INSERT OR
  // REPLACE would delete the schema's parent row.
  lemma RescanOverASchemaThrows(db: Tables, s: Scan, c: nat, j: nat)
    requires Settled(db) && c in db.connections && HasSchema(db.schemas, {c})
    requires j < |s.findings.connections| && j !in s.findings.rejected
    requires LandsOn(db, s.repo, s.findings.connections[j], db.connections[c])
    ensures WriteTx(db, s).Thrown?
  {
    hide WellFormed, Carried, LandsOn, PersistServices, PersistConnections, PersistSchemas, ServicesPersisted;
    if AfterBegin(db, s).Done? {
      var n, f := db.nextVersion, s.findings;
      var d1 := BegunStage(db, s);
      CarriedLandsOn(db, d1, s, f.connections[j], c);
      hide AfterBegin, Settled;
      var d2 := PersistServices(d1, s.repo, f.services, n);
      PersistServicesKeepsIntegrity(d1, s.repo, f.services, n);
      PersistServicesEffect(d1, s.repo, f.services, n);
      LandingIsStored(d1, d2, s, d1.connections[c], n, j);
      assert Concrete(KeyOf(d1.connections[c])) by { LandsOnConcrete(d1, s.repo, f.connections[j], d1.connections[c]); }
      SchemaBlocksItsKey(d2, s.repo, f.connections, f.rejected, n, c, j);
      assert PersistFindings(d1, s.repo, f, n).Thrown?;
    }
  }

  lemma LandsOnConcrete(db: Tables, repo: nat, f: ConnectionFinding, row: Connection)
    requires LandsOn(db, repo, f, row)
    ensures Concrete(KeyOf(row))
  {
  }

  lemma OldServiceResolves(d1: Tables, d2: Tables, repo: nat, fs: seq<ServiceFinding>, n: nat, x: nat, name: string)
    requires WellFormed(d2) && IsService(d1.services, x, repo, name)
    requires ServicesPersisted(d1.services, d2.services, d1.nextService, repo, fs, n)
    ensures Resolve(d2, repo, name) == Some(x)
  {
    RewrittenKeepsName(d1.services[x], repo, fs, n);
    assert IsService(d2.services, x, repo, name);
    NamedResolvesHere(d2, repo, name);
    SameNameSameId(d2.services, x, Resolve(d2, repo, name).value);
  }
}
