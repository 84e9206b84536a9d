// What a committed scan writes of its connection findings, by name: every new row is a finding's, and every
// evidenced finding has a row.
module ScanFindings {
  import opened Common
  import Paths
  import opened ScanTables
  import opened ScanPipeline
  import opened ScanIntegrity
  import opened ScanRuns
  import opened ScanEffects
  import opened ScanTheorems
  import opened ScanIsolation
  import opened ScanRescan

  // The row is finding j's, and no later stored finding has its concrete key.
  ghost predicate IsRowOf(db: Tables, row: Connection, repo: nat, cs: seq<ConnectionFinding>, rejected: set<nat>,
                          n: nat, j: nat) {
    && j < |cs| && StoredKey(db, repo, cs, rejected, j) == Some(KeyOf(row))
    && row.protocolRaw == OrNull(cs[j].protocol) && row.details == cs[j].details && row.version == Some(n)
    && (Concrete(KeyOf(row)) ==> forall i :: j < i < |cs| ==> StoredKey(db, repo, cs, rejected, i) != Some(KeyOf(row)))
  }

  ghost predicate IsRowOfSome(db: Tables, row: Connection, repo: nat, cs: seq<ConnectionFinding>, rejected: set<nat>,
                              n: nat) {
    exists j: nat :: IsRowOf(db, row, repo, cs, rejected, n, j)
  }

  lemma StillItsRow(db: Tables, row: Connection, repo: nat, cs: seq<ConnectionFinding>, front: seq<ConnectionFinding>,
                    rejected: set<nat>, n: nat, j: nat)
    requires cs != [] && front == cs[..|cs| - 1] && IsRowOf(db, row, repo, front, rejected, n, j)
    requires forall i :: 0 <= i < |front| ==>
             StoredKey(db, repo, cs, rejected, i) == StoredKey(db, repo, front, rejected, i)
    requires Concrete(KeyOf(row)) ==> StoredKey(db, repo, cs, rejected, |front|) != Some(KeyOf(row))
    ensures IsRowOf(db, row, repo, cs, rejected, n, j)
  {
    hide StoredKey, Concrete, KeyOf;
    assert cs[j] == front[j];
    forall i | j < i < |cs| && Concrete(KeyOf(row)) ensures StoredKey(db, repo, cs, rejected, i) != Some(KeyOf(row)) {
      if i < |front| {
        assert StoredKey(db, repo, front, rejected, i) != Some(KeyOf(row));
      }
    }
  }

  lemma RowOfLonger(db: Tables, row: Connection, repo: nat, cs: seq<ConnectionFinding>, rejected: set<nat>, n: nat)
    requires cs != [] && IsRowOfSome(db, row, repo, cs[..|cs| - 1], rejected, n)
    requires Concrete(KeyOf(row)) ==> StoredKey(db, repo, cs, rejected, |cs| - 1) != Some(KeyOf(row))
    ensures IsRowOfSome(db, row, repo, cs, rejected, n)
  {
    hide StoredKey, Concrete, KeyOf, IsRowOf, IsStored;
    var front := cs[..|cs| - 1];
    var j: nat :| IsRowOf(db, row, repo, front, rejected, n, j);
    assert forall i :: 0 <= i < |front| ==>
           StoredKey(db, repo, cs, rejected, i) == StoredKey(db, repo, front, rejected, i) by {
      StoredInLonger(db, repo, cs, rejected);
    }
    StillItsRow(db, row, repo, cs, front, rejected, n, j);
  }

  // The dedup index makes a new row with this key replace the row.
  ghost predicate Taken(row: Connection, key: Key) {
    Concrete(key) && KeyOf(row) == key
  }

  // The row a stored finding writes, under a fresh id; the rows it replaces had its concrete key.
  lemma FindingWritesItsRow(db: Tables, st: Stored, repo: nat, cs: seq<ConnectionFinding>, rejected: set<nat>, n: nat)
    requires cs != [] && st.db.services == db.services && st.db.nextService == db.nextService
    requires PersistConnection(st, repo, cs[|cs| - 1], |cs| - 1, rejected, n).Done?
    ensures var st' := PersistConnection(st, repo, cs[|cs| - 1], |cs| - 1, rejected, n).value;
            && st'.db.services == db.services && st'.db.nextService == db.nextService
            && match StoredKey(db, repo, cs, rejected, |cs| - 1)
               case None => st' == st
               case Some(key) =>
                 && st'.ids == st.ids[|cs| - 1 := st.db.nextConnection]
                 && st'.db.nextConnection == st.db.nextConnection + 1
                 && st.db.nextConnection in st'.db.connections
                 && (forall c :: c in st.db.connections && !Taken(st.db.connections[c], key) ==>
                     c in st'.db.connections)
                 && IsRowOf(db, st'.db.connections[st.db.nextConnection], repo, cs, rejected, n, |cs| - 1)
                 && (forall c | c in st'.db.connections && c != st.db.nextConnection ::
                       c in st.db.connections && st'.db.connections[c] == st.db.connections[c]
                           && !Taken(st.db.connections[c], key))
  {
    StoredKeyOfRow(db, st, repo, cs, rejected, |cs| - 1, n);
    var key := StoredKey(db, repo, cs, rejected, |cs| - 1);
    if key.Some? {
      var st' := PersistConnection(st, repo, cs[|cs| - 1], |cs| - 1, rejected, n).value;
      hide PersistConnection, StoredKey;
      var row :| RowFor(st, row, key.value, cs[|cs| - 1], n) && UpsertConnection(st.db, row) == Done(st'.db)
                 && st'.ids == st.ids[|cs| - 1 := st.db.nextConnection];
      hide MergePathTemplates, FindTemplate;
    } else {
      SkippedChangesNothing(db, st, repo, cs, rejected, n);
    }
  }

  lemma SkippedChangesNothing(db: Tables, st: Stored, repo: nat, cs: seq<ConnectionFinding>, rejected: set<nat>, n: nat)
    requires cs != [] && st.db.services == db.services && st.db.nextService == db.nextService
    requires StoredKey(db, repo, cs, rejected, |cs| - 1).None?
    ensures PersistConnection(st, repo, cs[|cs| - 1], |cs| - 1, rejected, n) == Done(st)
  {
  }

  // The rows the connection loop adds are findings' rows; of several with one concrete key, the last one's.
  lemma {:induction false} NewRowsAreFindings(db: Tables, repo: nat, cs: seq<ConnectionFinding>, rejected: set<nat>,
                                              n: nat)
    requires PersistConnections(db, repo, cs, rejected, n).Done?
    ensures var st := PersistConnections(db, repo, cs, rejected, n).value;
            && st.db.services == db.services && st.db.nextService == db.nextService
            && (forall c :: c in st.db.connections && c !in db.connections ==>
                  IsRowOfSome(db, st.db.connections[c], repo, cs, rejected, n))
  {
    if cs != [] {
      var last := |cs| - 1;
      var st := PersistConnections(db, repo, cs[..last], rejected, n).value;
      NewRowsAreFindings(db, repo, cs[..last], rejected, n);
      FindingWritesItsRow(db, st, repo, cs, rejected, n);
      var after := PersistConnection(st, repo, cs[last], last, rejected, n).value.db.connections;
      hide PersistConnection, StoredKey, IsRowOfSome, Concrete;
      forall c | c in after && c !in db.connections ensures IsRowOfSome(db, after[c], repo, cs, rejected, n) {
        if StoredKey(db, repo, cs, rejected, last).Some? && c == st.db.nextConnection {
          IsOfSome(db, after[c], repo, cs, rejected, n, last);
        } else {
          RowOfLonger(db, after[c], repo, cs, rejected, n);
        }
      }
    }
  }

  lemma IsOfSome(db: Tables, row: Connection, repo: nat, cs: seq<ConnectionFinding>, rejected: set<nat>, n: nat, j: nat)
    requires IsRowOf(db, row, repo, cs, rejected, n, j)
    ensures IsRowOfSome(db, row, repo, cs, rejected, n)
  {
  }

  // ---------------------------------------------------------------- by name

  ghost predicate Joins(services: map<nat, Service>, row: Connection, f: ConnectionFinding) {
    IsNamed(services, row.source, f.source) && IsNamed(services, row.target, f.target)
  }

  // The columns a finding sets.
  ghost predicate ColumnsOf(row: Connection, f: ConnectionFinding, n: nat) {
    && row.protocol == Paths.CanonicalProtocol(f.protocol) && row.protocolRaw == OrNull(f.protocol)
    && row.verb == OrNull(f.verb) && row.path == Paths.CanonicalizePath(OrNull(f.path))
    && row.details == f.details && row.version == Some(n)
  }

  lemma RowJoinsItsNames(db: Tables, row: Connection, repo: nat, cs: seq<ConnectionFinding>, rejected: set<nat>, n: nat,
                         j: nat)
    requires IsRowOf(db, row, repo, cs, rejected, n, j)
    ensures j !in rejected && Joins(db.services, row, cs[j]) && ColumnsOf(row, cs[j], n)
  {
    hide Paths.CanonicalProtocol, Paths.CanonicalizePath;
  }

  // A connection that is new after a committed scan, full or incremental, joins services with the names of one
  // of the evidenced findings and has that finding's columns.
  lemma NewConnectionsAreFindings(db: Tables, s: Scan, c: nat) returns (j: nat)
    requires Settled(db) && NoPending(db) && WriteTx(db, s).Done?
    requires c in WriteTx(db, s).value.connections && c !in db.connections
    ensures j < |s.findings.connections| && j !in s.findings.rejected
    ensures var after := WriteTx(db, s).value;
            Joins(after.services, after.connections[c], s.findings.connections[j])
            && ColumnsOf(after.connections[c], s.findings.connections[j], db.nextVersion)
  {
    hide WriteTx, Joins, ColumnsOf, NoPending, Settled;
    var d1, d2, st, d4 := StagesOfAScan(db, s);
    var after, f, n := WriteTx(db, s).value, s.findings, db.nextVersion;
    NewRowsAreFindings(d2, s.repo, f.connections, f.rejected, n);
    NewAmongTheRows(db, s, d1, d2, st, d4, c);
    hide PersistConnections, Stages, WellFormed, Unblocked, IsRowOf;
    j :| IsRowOf(d2, after.connections[c], s.repo, f.connections, f.rejected, n, j);
    RowJoinsItsNames(d2, after.connections[c], s.repo, f.connections, f.rejected, n, j);
    SurvivingNames(d2, after, after.connections[c], f.connections[j]);
  }

  lemma NewAmongTheRows(db: Tables, s: Scan, d1: Tables, d2: Tables, st: Stored, d4: Tables, c: nat)
    requires Stages(db, s, d1, d2, st, d4) && WellFormed(d4)
    requires c in EndScanResult(d4, s.repo, db.nextVersion, s.now).connections && c !in db.connections
    ensures c in st.db.connections && c !in d2.connections
    ensures var after := EndScanResult(d4, s.repo, db.nextVersion, s.now);
            && after.connections[c] == st.db.connections[c]
            && after.connections[c].source in after.services && after.connections[c].target in after.services
            && (forall x :: x in after.services ==> x in d2.services && after.services[x] == d2.services[x])
  {
    ServicesWhenWritten(db, s, d1, d2, st, d4);
    hide ServicesPersisted, ConnectionsPersisted, AllStored, Written;
  }

  lemma SurvivingNames(d2: Tables, after: Tables, row: Connection, f: ConnectionFinding)
    requires Joins(d2.services, row, f) && row.source in after.services && row.target in after.services
    requires forall x :: x in after.services ==> x in d2.services && after.services[x] == d2.services[x]
    ensures Joins(after.services, row, f)
  {
  }

  // Every evidenced finding of a closed set has a new connection between the repo's own services of its names,
  // under its canonical protocol, method and path.
  lemma EvidencedFindingsAreConnected(db: Tables, s: Scan, j: nat) returns (c: nat)
    requires Settled(db) && NoPending(db) && Closed(s.findings) && WriteTx(db, s).Done?
    requires j < |s.findings.connections| && j !in s.findings.rejected
    ensures c in WriteTx(db, s).value.connections && c !in db.connections
    ensures var after, f := WriteTx(db, s).value, s.findings.connections[j];
            var row := after.connections[c];
            && IsService(after.services, row.source, s.repo, f.source)
            && IsService(after.services, row.target, s.repo, f.target)
            && KeyOf(row) == FindingKey(row.source, row.target, f)
  {
    hide WriteTx, NoPending, Settled;
    var d1, d2, st, d4 := StagesOfAScan(db, s);
    c := FindingSurvives(db, s, d1, d2, st, d4, j);
  }

  lemma FindingSurvives(db: Tables, s: Scan, d1: Tables, d2: Tables, st: Stored, d4: Tables, j: nat) returns (c: nat)
    requires Stages(db, s, d1, d2, st, d4) && WellFormed(d2) && Closed(s.findings)
    requires j < |s.findings.connections| && j !in s.findings.rejected
    ensures var after, f := EndScanResult(d4, s.repo, db.nextVersion, s.now), s.findings.connections[j];
            && c in after.connections && c !in db.connections
            && IsService(after.services, after.connections[c].source, s.repo, f.source)
            && IsService(after.services, after.connections[c].target, s.repo, f.target)
            && KeyOf(after.connections[c]) == FindingKey(after.connections[c].source, after.connections[c].target, f)
  {
    var fs := s.findings;
    ServicesWhenWritten(db, s, d1, d2, st, d4);
    StoredAsNamed(d2, s.repo, fs, j);
    var key := StoredKey(d2, s.repo, fs.connections, fs.rejected, j).value;
    c := StoredOnANewRow(db, s, d1, d2, st, d4, j, key);
    hide WellFormed, Stages, FindingKey, StoredKey, Closed;
    NamedIsCurrent(db, d2, s, key.source, fs.connections[j].source);
    NamedIsCurrent(db, d2, s, key.target, fs.connections[j].target);
    CurrentRowsSurvive(d4, s.repo, db.nextVersion, s.now, c);
    hide EndScanResult, Current, Written;
  }

  lemma StoredOnANewRow(db: Tables, s: Scan, d1: Tables, d2: Tables, st: Stored, d4: Tables, j: nat, key: Key)
      returns (c: nat)
    requires Stages(db, s, d1, d2, st, d4) && j < |s.findings.connections|
    requires StoredKey(d2, s.repo, s.findings.connections, s.findings.rejected, j) == Some(key)
    ensures c in d4.connections && c !in db.connections && KeyOf(d4.connections[c]) == key
    ensures db.nextVersion in d4.versions
  {
    hide StoredKey, ServicesPersisted, ConnectionsPersisted;
    assert IsStored(d2, s.repo, s.findings.connections, s.findings.rejected, key);
    assert HasNewRow(d2.connections, st.db.connections, key);
    c :| c !in d2.connections && HasKey(st.db.connections, c, key);
    hide AllStored, IsStored;
    assert d4.connections == st.db.connections;
  }

  lemma CurrentRowsSurvive(d4: Tables, repo: nat, n: nat, now: int, c: nat)
    requires n in d4.versions && c in d4.connections
    requires d4.connections[c].source in Current(d4.services, repo, n)
             && d4.connections[c].target in Current(d4.services, repo, n)
    ensures var after := EndScanResult(d4, repo, n, now);
            && c in after.connections && after.connections[c] == d4.connections[c]
            && forall x :: x in Current(d4.services, repo, n) ==>
                x in after.services && after.services[x] == d4.services[x]
  {
  }

  lemma StoredAsNamed(d2: Tables, repo: nat, fs: Findings, j: nat)
    requires WellFormed(d2) && Closed(fs) && j < |fs.connections| && j !in fs.rejected
    requires forall name :: Named(fs.services, name) ==> HasService(d2.services, repo, name)
    ensures var key := StoredKey(d2, repo, fs.connections, fs.rejected, j);
            && key.Some? && key.value == FindingKey(key.value.source, key.value.target, fs.connections[j])
            && IsService(d2.services, key.value.source, repo, fs.connections[j].source)
            && IsService(d2.services, key.value.target, repo, fs.connections[j].target)
            && Named(fs.services, fs.connections[j].source) && Named(fs.services, fs.connections[j].target)
  {
    NamedResolvesHere(d2, repo, fs.connections[j].source);
    NamedResolvesHere(d2, repo, fs.connections[j].target);
    hide Resolve, WellFormed, Paths.CanonicalProtocol, Paths.CanonicalizePath;
  }

  lemma NamedIsCurrent(db: Tables, d2: Tables, s: Scan, x: nat, name: string)
    requires Written(db.services, d2.services, s, db.nextVersion)
    requires IsService(d2.services, x, s.repo, name) && Named(s.findings.services, name)
    ensures x in Current(d2.services, s.repo, db.nextVersion)
  {
    assert IsNamedHere(d2.services[x], s.repo, s.findings.services);
  }

  // ---------------------------------------------------------------- schemas of findings that were replaced

  // The key of every finding, None for those that are not stored.
  function KeysOf(db: Tables, repo: nat, cs: seq<ConnectionFinding>, rejected: set<nat>): seq<Option<Key>> {
    seq(|cs|, j requires 0 <= j < |cs| => StoredKey(db, repo, cs, rejected, j))
  }

  // Finding i is stored, and a later one takes its concrete key over.
  ghost predicate ReplacedLater(keys: seq<Option<Key>>, i: nat) {
    i < |keys| && keys[i].Some? && Concrete(keys[i].value) && exists j :: i < j < |keys| && keys[j] == keys[i]
  }

  // connIdByIndex: the stored findings, each with the id of its row, which is gone if it was replaced.
  ghost predicate IdsAre(keys: seq<Option<Key>>, st: Stored) {
    && (forall i: nat :: i in st.ids <==> i < |keys| && keys[i].Some?)
    && (forall i: nat :: i in st.ids ==> RowOfIndex(keys, st, i))
  }

  ghost predicate RowOfIndex(keys: seq<Option<Key>>, st: Stored, i: nat)
    requires i in st.ids
  {
    && i < |keys| && st.ids[i] < st.db.nextConnection
    && (st.ids[i] in st.db.connections <==> !ReplacedLater(keys, i))
    && (st.ids[i] in st.db.connections ==> Some(KeyOf(st.db.connections[st.ids[i]])) == keys[i])
  }

  lemma ReplacedByOneMore(keys: seq<Option<Key>>, key: Option<Key>, i: nat)
    requires i < |keys|
    ensures ReplacedLater(keys + [key], i)
            <==> ReplacedLater(keys, i) || (keys[i].Some? && Concrete(keys[i].value) && key == keys[i])
  {
    hide Concrete;
    var longer := keys + [key];
    assert forall j :: 0 <= j < |keys| ==> longer[j] == keys[j];
    assert longer[|keys|] == key;
  }

  lemma {:induction false} IdsOfFindings(db: Tables, repo: nat, cs: seq<ConnectionFinding>, rejected: set<nat>, n: nat)
    requires PersistConnections(db, repo, cs, rejected, n).Done?
    ensures IdsAre(KeysOf(db, repo, cs, rejected), PersistConnections(db, repo, cs, rejected, n).value)
  {
    if cs != [] {
      var last := |cs| - 1;
      var st := PersistConnections(db, repo, cs[..last], rejected, n).value;
      IdsOfFindings(db, repo, cs[..last], rejected, n);
      NewRowsAreFindings(db, repo, cs[..last], rejected, n);
      FindingWritesItsRow(db, st, repo, cs, rejected, n);
      KeysOfLonger(db, repo, cs, rejected);
      var key := StoredKey(db, repo, cs, rejected, last);
      var keys := KeysOf(db, repo, cs[..last], rejected);
      hide PersistConnection, KeysOf, StoredKey, IdsAre;
      if key.Some? {
        IdsAfterOneMore(keys, key.value, st, PersistConnection(st, repo, cs[last], last, rejected, n).value);
      } else {
        IdsAfterNone(keys, st);
      }
    }
  }

  lemma KeysOfLonger(db: Tables, repo: nat, cs: seq<ConnectionFinding>, rejected: set<nat>)
    requires cs != []
    ensures |KeysOf(db, repo, cs[..|cs| - 1], rejected)| == |cs| - 1
    ensures KeysOf(db, repo, cs, rejected)
            == KeysOf(db, repo, cs[..|cs| - 1], rejected) + [StoredKey(db, repo, cs, rejected, |cs| - 1)]
  {
    StoredInLonger(db, repo, cs, rejected);
    hide StoredKey;
  }

  lemma IdsAfterNone(keys: seq<Option<Key>>, st: Stored)
    requires IdsAre(keys, st)
    ensures IdsAre(keys + [None], st)
  {
    forall i: nat | i in st.ids ensures RowOfIndex(keys + [None], st, i) {
      assert RowOfIndex(keys, st, i);
      ReplacedByOneMore(keys, None, i);
    }
  }

  lemma IdsAfterOneMore(keys: seq<Option<Key>>, key: Key, st: Stored, st': Stored)
    requires IdsAre(keys, st)
    requires st'.ids == st.ids[|keys| := st.db.nextConnection] && st'.db.nextConnection == st.db.nextConnection + 1
    requires st.db.nextConnection in st'.db.connections && KeyOf(st'.db.connections[st.db.nextConnection]) == key
    requires forall c :: c in st.db.connections && !Taken(st.db.connections[c], key) ==> c in st'.db.connections
    requires forall c | c in st'.db.connections && c != st.db.nextConnection
               :: c in st.db.connections && st'.db.connections[c] == st.db.connections[c]
                   && !Taken(st.db.connections[c], key)
    ensures IdsAre(keys + [Some(key)], st')
  {
    hide KeyOf, Concrete;
    forall i: nat | i in st'.ids ensures RowOfIndex(keys + [Some(key)], st', i) {
      if i < |keys| {
        assert RowOfIndex(keys, st, i);
        ReplacedByOneMore(keys, Some(key), i);
      }
    }
  }

  // A schema finding that names a stored finding whose row is gone.
  ghost predicate Orphaned(connections: map<nat, Connection>, ids: map<nat, nat>, s: SchemaFinding) {
    s.connectionIndex.Some? && s.connectionIndex.value in ids && ids[s.connectionIndex.value] !in connections
  }

  lemma {:induction false} FieldsNeverThrow(db: Tables, schema: nat, fs: seq<FieldFinding>)
    requires schema in db.schemas
    ensures PersistFields(db, schema, fs).Done?
    ensures var after := PersistFields(db, schema, fs).value;
            after == db.(fields := after.fields, nextField := after.nextField)
  {
    if fs != [] {
      FieldsNeverThrow(db, schema, fs[..|fs| - 1]);
    }
  }

  lemma SchemaThrowsIffOrphaned(db: Tables, ids: map<nat, nat>, s: SchemaFinding)
    ensures PersistSchema(db, ids, s).Thrown? <==> Orphaned(db.connections, ids, s)
    ensures PersistSchema(db, ids, s).Done? ==> PersistSchema(db, ids, s).value.connections == db.connections
  {
    if s.connectionIndex.Some? && s.connectionIndex.value in ids && ids[s.connectionIndex.value] in db.connections {
      var row := Schema(ids[s.connectionIndex.value], s.role, s.name, OrNull(s.file));
      FieldsNeverThrow(InsertSchema(db, row).value, db.nextSchema, s.fields);
    }
  }

  lemma {:induction false} SchemasThrowIffOrphaned(db: Tables, ids: map<nat, nat>, ss: seq<SchemaFinding>)
    ensures PersistSchemas(db, ids, ss).Thrown? <==> exists q :: 0 <= q < |ss| && Orphaned(db.connections, ids, ss[q])
    ensures PersistSchemas(db, ids, ss).Done? ==> PersistSchemas(db, ids, ss).value.connections == db.connections
  {
    if ss != [] {
      var last, front := |ss| - 1, ss[..|ss| - 1];
      SchemasThrowIffOrphaned(db, ids, front);
      hide PersistSchema, Orphaned;
      assert forall q :: 0 <= q < last ==> front[q] == ss[q];
      if PersistSchemas(db, ids, front).Done? {
        SchemaThrowsIffOrphaned(PersistSchemas(db, ids, front).value, ids, ss[last]);
      } else {
        var q :| 0 <= q < |front| && Orphaned(db.connections, ids, front[q]);
        assert Orphaned(db.connections, ids, ss[q]);
      }
    }
  }

  ghost predicate SchemaOnReplaced(db: Tables, repo: nat, f: Findings, q: nat) {
    && q < |f.schemas| && f.schemas[q].connectionIndex.Some? && f.schemas[q].connectionIndex.value >= 0
    && ReplacedLater(KeysOf(db, repo, f.connections, f.rejected), f.schemas[q].connectionIndex.value)
  }

  // Once the connections are stored, the schemas throw exactly when one of them names a finding that a later
  // finding with the same key replaced: the map from index to row id still has the deleted row's id.
  lemma SchemasThrowIffReplaced(db: Tables, repo: nat, f: Findings, n: nat)
    requires PersistConnections(db, repo, f.connections, f.rejected, n).Done?
    ensures var st := PersistConnections(db, repo, f.connections, f.rejected, n).value;
            PersistSchemas(st.db, st.ids, f.schemas).Thrown? <==> exists q: nat :: SchemaOnReplaced(db, repo, f, q)
  {
    var st := PersistConnections(db, repo, f.connections, f.rejected, n).value;
    IdsOfFindings(db, repo, f.connections, f.rejected, n);
    SchemasThrowIffOrphaned(st.db, st.ids, f.schemas);
    hide PersistConnections, PersistSchemas, KeysOf;
    forall q: nat | q < |f.schemas|
      ensures Orphaned(st.db.connections, st.ids, f.schemas[q]) <==> SchemaOnReplaced(db, repo, f, q)
    {
    }
    hide Orphaned, SchemaOnReplaced;
    if exists q: nat :: SchemaOnReplaced(db, repo, f, q) {
      var q: nat :| SchemaOnReplaced(db, repo, f, q);
      OnReplacedIsInRange(db, repo, f, q);
      assert Orphaned(st.db.connections, st.ids, f.schemas[q]);
    }
  }

  lemma OnReplacedIsInRange(db: Tables, repo: nat, f: Findings, q: nat)
    requires SchemaOnReplaced(db, repo, f, q)
    ensures q < |f.schemas|
  {
  }

  // The schema row of finding q, on the row its connection index got.
  ghost predicate Declares(ids: map<nat, nat>, ss: seq<SchemaFinding>, row: Schema, q: nat) {
    && q < |ss| && ss[q].connectionIndex.Some? && ss[q].connectionIndex.value in ids
    && row == Schema(ids[ss[q].connectionIndex.value], ss[q].role, ss[q].name, OrNull(ss[q].file))
  }

  lemma SchemaIsDeclared(db: Tables, ids: map<nat, nat>, ss: seq<SchemaFinding>)
    requires ss != [] && PersistSchema(db, ids, ss[|ss| - 1]).Done?
    ensures var after := PersistSchema(db, ids, ss[|ss| - 1]).value;
            forall x :: x in after.schemas ==>
              (x in db.schemas && after.schemas[x] == db.schemas[x]) || Declares(ids, ss, after.schemas[x], |ss| - 1)
  {
    var s := ss[|ss| - 1];
    if s.connectionIndex.Some? && s.connectionIndex.value in ids {
      var row := Schema(ids[s.connectionIndex.value], s.role, s.name, OrNull(s.file));
      FieldsNeverThrow(InsertSchema(db, row).value, db.nextSchema, s.fields);
      hide PersistFields;
    }
  }

  lemma {:induction false} NewSchemasAreDeclared(db: Tables, ids: map<nat, nat>, ss: seq<SchemaFinding>, x: nat)
      returns (q: nat)
    requires PersistSchemas(db, ids, ss).Done? && x in PersistSchemas(db, ids, ss).value.schemas && x !in db.schemas
    ensures Declares(ids, ss, PersistSchemas(db, ids, ss).value.schemas[x], q)
  {
    if ss == [] {
      assert false;
    } else {
      var front, last := ss[..|ss| - 1], |ss| - 1;
      var before := PersistSchemas(db, ids, front).value;
      var row := PersistSchemas(db, ids, ss).value.schemas[x];
      SchemaIsDeclared(before, ids, ss);
      hide PersistSchema;
      if Declares(ids, ss, row, last) {
        q := last;
      } else {
        q := NewSchemasAreDeclared(db, ids, front, x);
        assert front[q] == ss[q];
      }
    }
  }

  // A schema hangs on the connection of the finding its index names, and on no other.
  lemma SchemasFollowTheirFindings(db: Tables, repo: nat, f: Findings, n: nat, x: nat) returns (q: nat, i: nat)
    requires PersistConnections(db, repo, f.connections, f.rejected, n).Done?
    requires var st := PersistConnections(db, repo, f.connections, f.rejected, n).value;
             PersistSchemas(st.db, st.ids, f.schemas).Done?
             && x in PersistSchemas(st.db, st.ids, f.schemas).value.schemas && x !in st.db.schemas
    ensures q < |f.schemas| && f.schemas[q].connectionIndex == Some(i) && i < |f.connections|
    ensures var st := PersistConnections(db, repo, f.connections, f.rejected, n).value;
            var row := PersistSchemas(st.db, st.ids, f.schemas).value.schemas[x];
            && row.role == f.schemas[q].role && row.name == f.schemas[q].name && row.file == OrNull(f.schemas[q].file)
            && row.connection in st.db.connections
            && Some(KeyOf(st.db.connections[row.connection])) == StoredKey(db, repo, f.connections, f.rejected, i)
  {
    var st := PersistConnections(db, repo, f.connections, f.rejected, n).value;
    IdsOfFindings(db, repo, f.connections, f.rejected, n);
    SchemasThrowIffOrphaned(st.db, st.ids, f.schemas);
    q := NewSchemasAreDeclared(st.db, st.ids, f.schemas, x);
    hide PersistConnections, PersistSchemas, StoredKey;
    i := f.schemas[q].connectionIndex.value;
    assert !Orphaned(st.db.connections, st.ids, f.schemas[q]);
    assert RowOfIndex(KeysOf(db, repo, f.connections, f.rejected), st, i);
  }

  // Both findings name services of the findings, and agree on the canonical protocol, method and path.
  ghost predicate SameCall(f: Findings, i: nat, j: nat) {
    && i < j < |f.connections| && i !in f.rejected && j !in f.rejected
    && var a, b := f.connections[i], f.connections[j];
       && a.source == b.source && a.target == b.target && Named(f.services, a.source) && Named(f.services, a.target)
       && Paths.CanonicalProtocol(a.protocol) == Paths.CanonicalProtocol(b.protocol)
       && a.verb == b.verb != "" && a.path != "" && b.path != ""
       && Paths.Canonicalize(a.path) == Paths.Canonicalize(b.path)
  }

  lemma SameCallSameKey(d2: Tables, repo: nat, f: Findings, i: nat, j: nat)
    requires WellFormed(d2) && SameCall(f, i, j)
    requires forall name :: Named(f.services, name) ==> HasService(d2.services, repo, name)
    ensures ReplacedLater(KeysOf(d2, repo, f.connections, f.rejected), i)
  {
    NamedResolvesHere(d2, repo, f.connections[i].source);
    NamedResolvesHere(d2, repo, f.connections[i].target);
    hide Resolve, WellFormed, Paths.CanonicalProtocol, Paths.Canonicalize, Named;
    var keys := KeysOf(d2, repo, f.connections, f.rejected);
    assert keys[j] == keys[i];
  }

  // A scan throws, in either mode and from any state, when two evidenced findings are the same call and a
  // schema belongs to the earlier one.
  lemma DuplicateCallWithSchemaThrows(db: Tables, s: Scan, i: nat, j: nat, q: nat)
    requires Settled(db) && SameCall(s.findings, i, j)
    requires q < |s.findings.schemas| && s.findings.schemas[q].connectionIndex == Some(i)
    ensures WriteTx(db, s).Thrown?
  {
    if AfterBegin(db, s).Done? {
      var n, f := db.nextVersion, s.findings;
      var d1 := BegunStage(db, s);
      hide AfterBegin, Settled, Carried, SameCall;
      var d2 := PersistServices(d1, s.repo, f.services, n);
      PersistServicesKeepsIntegrity(d1, s.repo, f.services, n);
      PersistServicesEffect(d1, s.repo, f.services, n);
      hide PersistServices, PersistConnections, PersistSchemas, WellFormed;
      SameCallSameKey(d2, s.repo, f, i, j);
      if PersistConnections(d2, s.repo, f.connections, f.rejected, n).Done? {
        SchemasThrowIffReplaced(d2, s.repo, f, n);
        hide ReplacedLater;
        assert SchemaOnReplaced(d2, s.repo, f, q);
      }
      assert PersistFindings(d1, s.repo, f, n).Thrown?;
    }
  }
}
