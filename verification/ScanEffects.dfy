// What each phase leaves in the tables, as relations between the tables before and after.
module ScanEffects {
  import opened Common
  import opened ScanTables
  import opened ScanPipeline
  import opened ScanIntegrity

  // ---------------------------------------------------------------- services

  ghost predicate Named(fs: seq<ServiceFinding>, name: string) {
    exists i :: 0 <= i < |fs| && fs[i].name == name
  }

  // A name given twice keeps the columns of its last finding.
  function LastNamed(fs: seq<ServiceFinding>, name: string): (f: ServiceFinding)
    requires Named(fs, name)
    ensures f in fs && f.name == name
  {
    if fs[|fs| - 1].name == name then fs[|fs| - 1] else LastNamed(fs[..|fs| - 1], name)
  }

  // The row of a service finding: what it leaves out has its default, or is NULL.
  ghost predicate IsServiceRow(row: Service, repo: nat, f: ServiceFinding, n: nat) {
    && row.repo == repo && row.name == f.name && row.version == Some(n)
    && row.rootPath == (if f.rootPath == "" then "." else f.rootPath)
    && row.language == (if f.language == "" then "unknown" else f.language)
    && row.kind == (if f.kind == "" then "service" else f.kind)
    && row.boundaryEntry == (if f.boundaryEntry == "" then None else Some(f.boundaryEntry))
    && row.basePath == (if f.basePath == "" then None else Some(f.basePath))
    && row.sourceFile == (if f.sourceFile == "" then None else Some(f.sourceFile))
  }

  // Finding i is the last one of its name.
  ghost predicate IsLastOfItsName(fs: seq<ServiceFinding>, i: int) {
    0 <= i < |fs| && forall j :: i < j < |fs| ==> fs[j].name != fs[i].name
  }

  // The row is the one of the last finding of its name.
  ghost predicate IsFound(row: Service, repo: nat, fs: seq<ServiceFinding>, n: nat) {
    exists i :: IsLastOfItsName(fs, i) && fs[i].name == row.name && IsServiceRow(row, repo, fs[i], n)
  }

  lemma {:induction false} LastNamedIsLast(fs: seq<ServiceFinding>, name: string) returns (i: nat)
    requires Named(fs, name)
    ensures IsLastOfItsName(fs, i) && fs[i].name == name && LastNamed(fs, name) == fs[i]
  {
    if fs[|fs| - 1].name == name {
      i := |fs| - 1;
    } else {
      assert Named(fs[..|fs| - 1], name);
      i := LastNamedIsLast(fs[..|fs| - 1], name);
    }
  }

  lemma WrittenIsFound(repo: nat, fs: seq<ServiceFinding>, name: string, n: nat)
    requires Named(fs, name)
    ensures IsFound(ServiceRow(repo, LastNamed(fs, name), n), repo, fs, n)
  {
    var i := LastNamedIsLast(fs, name);
    assert IsServiceRow(ServiceRow(repo, fs[i], n), repo, fs[i], n);
  }

  ghost predicate IsNamedHere(s: Service, repo: nat, fs: seq<ServiceFinding>) {
    s.repo == repo && Named(fs, s.name)
  }

  // The row a service of that repo and name has after the findings are written.
  ghost function Rewritten(s: Service, repo: nat, fs: seq<ServiceFinding>, n: nat): Service {
    if IsNamedHere(s, repo, fs) then ServiceRow(repo, LastNamed(fs, s.name), n) else s
  }

  ghost predicate ServicesPersisted(before: map<nat, Service>, after: map<nat, Service>, next: nat,
                                    repo: nat, fs: seq<ServiceFinding>, n: nat)
  {
    && (forall s :: s in before ==> s in after && after[s] == Rewritten(before[s], repo, fs, n))
    && (forall s :: s in after && s !in before ==>
          s >= next && IsNamedHere(after[s], repo, fs) && after[s] == Rewritten(after[s], repo, fs, n))
    && (forall name :: Named(fs, name) ==> HasService(after, repo, name))
  }

  ghost predicate HasService(services: map<nat, Service>, repo: nat, name: string) {
    exists s :: IsService(services, s, repo, name)
  }

  lemma NamedInLonger(fs: seq<ServiceFinding>, name: string)
    requires fs != []
    ensures Named(fs, name) <==> Named(fs[..|fs| - 1], name) || fs[|fs| - 1].name == name
    ensures Named(fs, name) ==>
              LastNamed(fs, name) == if fs[|fs| - 1].name == name then fs[|fs| - 1] else LastNamed(fs[..|fs| - 1], name)
  {
    if Named(fs[..|fs| - 1], name) {
      var i :| 0 <= i < |fs| - 1 && fs[..|fs| - 1][i].name == name;
      assert fs[i].name == name;
    }
  }

  lemma RewrittenByLonger(s: Service, repo: nat, fs: seq<ServiceFinding>, n: nat)
    requires fs != []
    ensures Rewritten(s, repo, fs, n) ==
            if s.repo == repo && s.name == fs[|fs| - 1].name then ServiceRow(repo, fs[|fs| - 1], n)
            else Rewritten(s, repo, fs[..|fs| - 1], n)
    ensures IsNamedHere(s, repo, fs) <==>
            IsNamedHere(s, repo, fs[..|fs| - 1]) || (s.repo == repo && s.name == fs[|fs| - 1].name)
  {
    NamedInLonger(fs, s.name);
  }

  // Writing the next finding's row where its name is, or under a new id, extends the relation.
  lemma PutServicePersists(before: map<nat, Service>, mid: map<nat, Service>, id: nat, next: nat, repo: nat,
                           fs: seq<ServiceFinding>, n: nat)
    requires fs != []
    requires ServicesPersisted(before, mid, next, repo, fs[..|fs| - 1], n)
    requires forall s :: s in mid && mid[s].repo == repo && mid[s].name == fs[|fs| - 1].name ==> s == id
    requires id in mid ==> mid[id].repo == repo && mid[id].name == fs[|fs| - 1].name
    requires id !in mid ==> id >= next && id !in before
    ensures ServicesPersisted(before, mid[id := ServiceRow(repo, fs[|fs| - 1], n)], next, repo, fs, n)
  {
    var row := ServiceRow(repo, fs[|fs| - 1], n);
    var after := mid[id := row];
    hide IsNamedHere, Rewritten, HasService, Named;
    forall s | s in before ensures s in after && after[s] == Rewritten(before[s], repo, fs, n) {
      RewrittenByLonger(before[s], repo, fs, n);
      RewrittenKeepsName(before[s], repo, fs[..|fs| - 1], n);
    }
    forall s | s in after && s !in before
      ensures s >= next && IsNamedHere(after[s], repo, fs) && after[s] == Rewritten(after[s], repo, fs, n)
    {
      RewrittenByLonger(after[s], repo, fs, n);
    }
    forall name | Named(fs, name) ensures HasService(after, repo, name) {
      NamedInLonger(fs, name);
      PutKeepsNames(mid, id, row, name);
    }
  }

  lemma PutKeepsNames(mid: map<nat, Service>, id: nat, row: Service, name: string)
    requires HasService(mid, row.repo, name) || row.name == name
    requires id in mid ==> mid[id].repo == row.repo && mid[id].name == row.name
    ensures HasService(mid[id := row], row.repo, name)
  {
    if row.name == name {
      assert IsService(mid[id := row], id, row.repo, name);
    } else {
      var s :| IsService(mid, s, row.repo, name);
      assert IsService(mid[id := row], s, row.repo, name);
    }
  }

  lemma RewrittenKeepsName(s: Service, repo: nat, fs: seq<ServiceFinding>, n: nat)
    ensures Rewritten(s, repo, fs, n).repo == s.repo && Rewritten(s, repo, fs, n).name == s.name
  {
  }

  lemma UpsertServicePersists(before: map<nat, Service>, db: Tables, next: nat, repo: nat,
                              fs: seq<ServiceFinding>, n: nat)
    requires WellFormed(db) && fs != [] && next <= db.nextService && IdsBelow(before, next)
    requires ServicesPersisted(before, db.services, next, repo, fs[..|fs| - 1], n)
    ensures ServicesPersisted(before, UpsertService(db, ServiceRow(repo, fs[|fs| - 1], n)).services, next, repo, fs, n)
  {
    var row := ServiceRow(repo, fs[|fs| - 1], n);
    var id := FindService(db.services, db.nextService, repo, row.name).GetOr(db.nextService);
    forall s | s in db.services && db.services[s].repo == repo && db.services[s].name == row.name ensures s == id {
      assert IsService(db.services, s, repo, row.name);
    }
    hide ServicesPersisted;
    PutServicePersists(before, db.services, id, next, repo, fs, n);
  }

  lemma {:induction false} PersistServicesEffect(db: Tables, repo: nat, fs: seq<ServiceFinding>, n: nat)
    requires WellFormed(db) && repo in db.repos
    ensures db.nextService <= PersistServices(db, repo, fs, n).nextService
    ensures ServicesPersisted(db.services, PersistServices(db, repo, fs, n).services, db.nextService, repo, fs, n)
  {
    if fs != [] {
      var earlier := fs[..|fs| - 1];
      PersistServicesEffect(db, repo, earlier, n);
      PersistServicesKeepsIntegrity(db, repo, earlier, n);
      UpsertServicePersists(db.services, PersistServices(db, repo, earlier, n), db.nextService, repo, fs, n);
      hide ServicesPersisted, WellFormed;
    }
  }

  // ---------------------------------------------------------------- connections

  // The key a finding is stored under, if both its services are known and its evidence holds.
  function StoredKey(db: Tables, repo: nat, cs: seq<ConnectionFinding>, rejected: set<nat>, j: nat): Option<Key>
    requires j < |cs|
  {
    var source, target := Resolve(db, repo, cs[j].source), Resolve(db, repo, cs[j].target);
    if source.None? || target.None? || j in rejected then None
    else Some(FindingKey(source.value, target.value, cs[j]))
  }

  ghost predicate IsStored(db: Tables, repo: nat, cs: seq<ConnectionFinding>, rejected: set<nat>, k: Key) {
    exists j :: 0 <= j < |cs| && StoredKey(db, repo, cs, rejected, j) == Some(k)
  }

  // A row present before is untouched, or gone in favour of a stored finding with the same concrete key.
  ghost predicate KeptOrReplaced(db: Tables, after: map<nat, Connection>, c: nat, repo: nat,
                                 cs: seq<ConnectionFinding>, rejected: set<nat>)
    requires c in db.connections
  {
    if c in after then after[c] == db.connections[c]
    else Concrete(KeyOf(db.connections[c])) && IsStored(db, repo, cs, rejected, KeyOf(db.connections[c]))
  }

  ghost predicate ConnectionsPersisted(db: Tables, st: Stored, repo: nat, cs: seq<ConnectionFinding>,
                                       rejected: set<nat>, n: nat) {
    && db.nextConnection <= st.db.nextConnection
    && (forall c :: c in db.connections ==> KeptOrReplaced(db, st.db.connections, c, repo, cs, rejected))
    && (forall c :: c in st.db.connections && c !in db.connections ==>
          c >= db.nextConnection && st.db.connections[c].version == Some(n)
          && IsStored(db, repo, cs, rejected, KeyOf(st.db.connections[c])))
    && (forall j :: j in st.ids ==> db.nextConnection <= st.ids[j] < st.db.nextConnection)
  }

  lemma StoredInLonger(db: Tables, repo: nat, cs: seq<ConnectionFinding>, rejected: set<nat>)
    requires cs != []
    ensures forall j :: 0 <= j < |cs| - 1 ==>
              StoredKey(db, repo, cs, rejected, j) == StoredKey(db, repo, cs[..|cs| - 1], rejected, j)
    ensures forall k :: IsStored(db, repo, cs[..|cs| - 1], rejected, k) ==> IsStored(db, repo, cs, rejected, k)
  {
    forall k | IsStored(db, repo, cs[..|cs| - 1], rejected, k) ensures IsStored(db, repo, cs, rejected, k) {
      var j :| 0 <= j < |cs| - 1 && StoredKey(db, repo, cs[..|cs| - 1], rejected, j) == Some(k);
      assert StoredKey(db, repo, cs, rejected, j) == Some(k);
    }
  }

  // The row written for a finding under its key.
  predicate RowFor(st: Stored, row: Connection, key: Key, f: ConnectionFinding, n: nat) {
    && KeyOf(row) == key && row.version == Some(n)
    && row.protocolRaw == OrNull(f.protocol) && row.details == f.details
    && row.pathTemplate == MergePathTemplates(FindTemplate(st.db.connections, st.db.nextConnection, key),
                                              OrNull(f.path))
  }

  lemma StoredKeyOfRow(db: Tables, st: Stored, repo: nat, cs: seq<ConnectionFinding>, rejected: set<nat>, j: nat,
                       n: nat)
    requires j < |cs| && st.db.services == db.services && st.db.nextService == db.nextService
    requires PersistConnection(st, repo, cs[j], j, rejected, n).Done?
    ensures var st' := PersistConnection(st, repo, cs[j], j, rejected, n).value;
            match StoredKey(db, repo, cs, rejected, j)
            case None => st' == st
            case Some(key) => exists row :: RowFor(st, row, key, cs[j], n)
                                && UpsertConnection(st.db, row) == Done(st'.db)
                                && st'.ids == st.ids[j := st.db.nextConnection]
  {
    if StoredKey(db, repo, cs, rejected, j).Some? {
      var source, target := Resolve(st.db, repo, cs[j].source), Resolve(st.db, repo, cs[j].target);
      var row := ConnectionRow(st.db, source.value, target.value, cs[j], n);
      hide UpsertConnection, Resolve;
      var st' := PersistConnection(st, repo, cs[j], j, rejected, n).value;
      assert RowFor(st, row, StoredKey(db, repo, cs, rejected, j).value, cs[j], n);
      assert UpsertConnection(st.db, row) == Done(st'.db);
    }
  }

  lemma UpsertKeepsOrReplaces(db: Tables, before: map<nat, Connection>, id: nat, row: Connection, c: nat, repo: nat,
                              cs: seq<ConnectionFinding>, rejected: set<nat>)
    requires cs != [] && c in db.connections && c != id
    requires KeptOrReplaced(db, before, c, repo, cs[..|cs| - 1], rejected)
    requires IsStored(db, repo, cs, rejected, KeyOf(row))
    ensures KeptOrReplaced(db, (before - Replaced(before, KeyOf(row)))[id := row], c, repo, cs, rejected)
  {
    StoredInLonger(db, repo, cs, rejected);
    hide IsStored;
  }

  lemma UpsertedConnections(db: Tables, row: Connection)
    requires UpsertConnection(db, row).Done?
    ensures var after := UpsertConnection(db, row).value;
            && after.connections == (db.connections - Replaced(db.connections, KeyOf(row)))[db.nextConnection := row]
            && after.nextConnection == db.nextConnection + 1
            && forall c :: c in after.connections && c != db.nextConnection ==>
                 c in db.connections && after.connections[c] == db.connections[c]
  {
  }

  lemma UpsertConnectionPersists(db: Tables, st: Stored, st': Stored, row: Connection, repo: nat,
                                 cs: seq<ConnectionFinding>, rejected: set<nat>, n: nat)
    requires cs != [] && IdsBelow(db.connections, db.nextConnection)
    requires ConnectionsPersisted(db, st, repo, cs[..|cs| - 1], rejected, n)
    requires UpsertConnection(st.db, row) == Done(st'.db) && st'.ids == st.ids[|cs| - 1 := st.db.nextConnection]
    requires IsStored(db, repo, cs, rejected, KeyOf(row)) && row.version == Some(n)
    ensures ConnectionsPersisted(db, st', repo, cs, rejected, n)
  {
    hide IsStored, KeptOrReplaced, UpsertConnection, Replaced;
    var id := st.db.nextConnection;
    UpsertedConnections(st.db, row);
    forall c | c in db.connections ensures KeptOrReplaced(db, st'.db.connections, c, repo, cs, rejected) {
      UpsertKeepsOrReplaces(db, st.db.connections, id, row, c, repo, cs, rejected);
    }
    forall c | c in st'.db.connections && c !in db.connections
      ensures c >= db.nextConnection && st'.db.connections[c].version == Some(n)
              && IsStored(db, repo, cs, rejected, KeyOf(st'.db.connections[c]))
    {
      if c != id {
        assert c in st.db.connections && st'.db.connections[c] == st.db.connections[c];
        StoredInLonger(db, repo, cs, rejected);
      }
    }
  }

  lemma PersistConnectionPersists(db: Tables, st: Stored, repo: nat, cs: seq<ConnectionFinding>, rejected: set<nat>,
                                  n: nat)
    requires cs != [] && IdsBelow(db.connections, db.nextConnection)
    requires st.db.services == db.services && st.db.nextService == db.nextService
    requires ConnectionsPersisted(db, st, repo, cs[..|cs| - 1], rejected, n)
    requires PersistConnection(st, repo, cs[|cs| - 1], |cs| - 1, rejected, n).Done?
    ensures ConnectionsPersisted(db, PersistConnection(st, repo, cs[|cs| - 1], |cs| - 1, rejected, n).value, repo, cs,
                                 rejected, n)
  {
    var last := |cs| - 1;
    StoredKeyOfRow(db, st, repo, cs, rejected, last, n);
    var st' := PersistConnection(st, repo, cs[last], last, rejected, n).value;
    var key := StoredKey(db, repo, cs, rejected, last);
    if key.Some? {
      var row :| RowFor(st, row, key.value, cs[last], n)
                 && UpsertConnection(st.db, row) == Done(st'.db) && st'.ids == st.ids[last := st.db.nextConnection];
      assert IsStored(db, repo, cs, rejected, key.value);
      hide ConnectionsPersisted, PersistConnection, UpsertConnection;
      UpsertConnectionPersists(db, st, st', row, repo, cs, rejected, n);
    } else {
      StoredInLonger(db, repo, cs, rejected);
      hide PersistConnection, IsStored, StoredKey;
    }
  }

  lemma {:induction false} PersistConnectionsEffect(db: Tables, repo: nat, cs: seq<ConnectionFinding>,
                                                    rejected: set<nat>, n: nat)
    requires WellFormed(db) && PersistConnections(db, repo, cs, rejected, n).Done?
    ensures ConnectionsPersisted(db, PersistConnections(db, repo, cs, rejected, n).value, repo, cs, rejected, n)
  {
    if cs != [] {
      var earlier := cs[..|cs| - 1];
      PersistConnectionsEffect(db, repo, earlier, rejected, n);
      PersistConnectionsKeepsIntegrity(db, repo, earlier, rejected, n);
      PersistConnectionPersists(db, PersistConnections(db, repo, earlier, rejected, n).value, repo, cs, rejected, n);
      hide ConnectionsPersisted, WellFormed, PersistConnection;
    }
  }

  // Every stored finding's key is on a row the scan inserted.
  ghost predicate HasNewRow(before: map<nat, Connection>, after: map<nat, Connection>, k: Key) {
    exists c :: c !in before && HasKey(after, c, k)
  }

  ghost predicate AllStored(db: Tables, after: map<nat, Connection>, repo: nat, cs: seq<ConnectionFinding>,
                            rejected: set<nat>) {
    forall k :: IsStored(db, repo, cs, rejected, k) ==> HasNewRow(db.connections, after, k)
  }

  lemma UpsertStores(db: Tables, mid: map<nat, Connection>, id: nat, row: Connection, repo: nat,
                     cs: seq<ConnectionFinding>, rejected: set<nat>)
    requires cs != [] && id !in db.connections && id !in mid
    requires AllStored(db, mid, repo, cs[..|cs| - 1], rejected)
    requires StoredKey(db, repo, cs, rejected, |cs| - 1) == Some(KeyOf(row))
    ensures AllStored(db, (mid - Replaced(mid, KeyOf(row)))[id := row], repo, cs, rejected)
  {
    hide StoredKey;
    var after := (mid - Replaced(mid, KeyOf(row)))[id := row];
    StoredInLonger(db, repo, cs, rejected);
    forall k | IsStored(db, repo, cs, rejected, k) ensures HasNewRow(db.connections, after, k) {
      var j :| 0 <= j < |cs| && StoredKey(db, repo, cs, rejected, j) == Some(k);
      if k == KeyOf(row) {
        assert HasKey(after, id, k);
      } else {
        assert IsStored(db, repo, cs[..|cs| - 1], rejected, k);
        var c :| c !in db.connections && HasKey(mid, c, k);
        assert HasKey(after, c, k);
      }
    }
  }

  lemma SkippedFindingStoresNothing(db: Tables, mid: map<nat, Connection>, repo: nat, cs: seq<ConnectionFinding>,
                                    rejected: set<nat>)
    requires cs != [] && StoredKey(db, repo, cs, rejected, |cs| - 1).None?
    requires AllStored(db, mid, repo, cs[..|cs| - 1], rejected)
    ensures AllStored(db, mid, repo, cs, rejected)
  {
    StoredInLonger(db, repo, cs, rejected);
    forall k | IsStored(db, repo, cs, rejected, k) ensures HasNewRow(db.connections, mid, k) {
      var j :| 0 <= j < |cs| && StoredKey(db, repo, cs, rejected, j) == Some(k);
      hide StoredKey, HasNewRow;
      assert IsStored(db, repo, cs[..|cs| - 1], rejected, k);
    }
  }

  lemma {:induction false} PersistConnectionsStoresAll(db: Tables, repo: nat, cs: seq<ConnectionFinding>,
                                                       rejected: set<nat>, n: nat)
    requires WellFormed(db) && PersistConnections(db, repo, cs, rejected, n).Done?
    ensures AllStored(db, PersistConnections(db, repo, cs, rejected, n).value.db.connections, repo, cs, rejected)
  {
    if cs != [] {
      var last := |cs| - 1;
      PersistConnectionsStoresAll(db, repo, cs[..last], rejected, n);
      PersistConnectionsKeepsIntegrity(db, repo, cs[..last], rejected, n);
      var st := PersistConnections(db, repo, cs[..last], rejected, n).value;
      StoredKeyOfRow(db, st, repo, cs, rejected, last, n);
      var st' := PersistConnection(st, repo, cs[last], last, rejected, n).value;
      var key := StoredKey(db, repo, cs, rejected, last);
      hide AllStored, PersistConnection;
      if key.Some? {
        var row :| RowFor(st, row, key.value, cs[last], n)
                   && UpsertConnection(st.db, row) == Done(st'.db) && st'.ids == st.ids[last := st.db.nextConnection];
        hide StoredKey;
        UpsertStores(db, st.db.connections, st.db.nextConnection, row, repo, cs, rejected);
      } else {
        SkippedFindingStoresNothing(db, st.db.connections, repo, cs, rejected);
      }
    } else {
      forall k ensures !IsStored(db, repo, cs, rejected, k) {
      }
    }
  }

  // ---------------------------------------------------------------- overrides

  ghost predicate NoPending(db: Tables) {
    forall i :: 0 <= i < |db.overrides| ==> db.overrides[i].stamp.Some?
  }

  lemma {:induction false} NothingPending(db: Tables, k: nat, n: nat, faults: map<nat, nat>)
    requires NoPending(db) && k <= |db.overrides|
    ensures ApplyFirst(db, k, n, faults).db == db
  {
    if k > 0 {
      NothingPending(db, k - 1, n, faults);
    }
  }

  // ---------------------------------------------------------------- deleted-file cleanup

  ghost predicate DefinedIn(s: Service, repo: nat, files: seq<string>) {
    s.repo == repo && s.sourceFile.Some? && s.sourceFile.value in files
  }

  lemma {:induction false} DeleteConnectionsOfEffect(p: Progress, ids: seq<nat>)
    requires DeleteConnectionsOf(p, ids).ok
    ensures p.ok
    ensures var gone := set id | id in ids;
            DeleteConnectionsOf(p, ids).db
            == p.db.(connections := p.db.connections - Touching(p.db.connections, gone))
  {
    hide Touching, HasSchema;
    if ids == [] {
      NothingTouched(p.db.connections, set id | id in ids);
    } else {
      var last := |ids| - 1;
      var q := DeleteConnectionsOf(p, ids[..last]);
      assert DeleteConnectionsOf(p, ids)
             == RunStatement(q, DeleteConnections(q.db, Touching(q.db.connections, {ids[last]})));
      DeleteConnectionsOfEffect(p, ids[..last]);
      hide DeleteConnectionsOf;
      var earlier, gone := set id | id in ids[..last], set id | id in ids;
      assert gone == earlier + {ids[last]} by {
        assert ids == ids[..last] + [ids[last]];
      }
      var left := p.db.connections - Touching(p.db.connections, earlier);
      assert q.db == p.db.(connections := left);
      TouchingInTurn(p.db.connections, earlier, ids[last]);
      var after := DeleteConnectionsOf(p, ids).db;
      assert after == q.db.(connections := left - Touching(left, {ids[last]}));
      assert after == p.db.(connections := p.db.connections - Touching(p.db.connections, gone));
    }
  }

  lemma NothingTouched(connections: map<nat, Connection>, ids: set<nat>)
    requires ids == {}
    ensures connections - Touching(connections, ids) == connections
  {
    assert Touching(connections, ids) == {};
  }

  lemma TouchingInTurn(connections: map<nat, Connection>, earlier: set<nat>, id: nat)
    ensures var left := connections - Touching(connections, earlier);
            left - Touching(left, {id}) == connections - Touching(connections, earlier + {id})
  {
  }

  ghost predicate FilesDeleted(db: Tables, after: Tables, repo: nat, files: seq<string>) {
    && (forall s :: s in after.services <==> s in db.services && !DefinedIn(db.services[s], repo, files))
    && (forall s :: s in after.services ==> after.services[s] == db.services[s])
    && after.connections == Among(db.connections, after.services.Keys)
  }

  lemma FilesDeletedOneByOne(a: Tables, b: Tables, c: Tables, repo: nat, files: seq<string>, file: string)
    requires FilesDeleted(a, b, repo, files) && FilesDeleted(b, c, repo, [file])
    ensures FilesDeleted(a, c, repo, files + [file])
  {
    forall s | s in a.services
      ensures DefinedIn(a.services[s], repo, files + [file])
              <==> DefinedIn(a.services[s], repo, files) || DefinedIn(a.services[s], repo, [file])
    {
    }
    hide DefinedIn;
    assert c.services.Keys <= b.services.Keys;
    assert Among(Among(a.connections, b.services.Keys), c.services.Keys) == Among(a.connections, c.services.Keys);
  }

  // On normal return the cleanup removes exactly this repo's services defined in one of the files,
  // and the connections touching them.
  lemma {:induction false} DeleteFilesEffect(p: Progress, repo: nat, files: seq<string>)
    requires WellFormed(p.db) && DeleteFiles(p, repo, files).ok
    ensures p.ok
    ensures FilesDeleted(p.db, DeleteFiles(p, repo, files).db, repo, files)
  {
    if files == [] {
      assert Among(p.db.connections, p.db.services.Keys) == p.db.connections;
    } else {
      var last := |files| - 1;
      var p1 := DeleteFiles(p, repo, files[..last]);
      DeleteFilesKeepsIntegrity(p, repo, files[..last]);
      DeleteFileEffect(p1, repo, files[last]);
      DeleteFilesEffect(p, repo, files[..last]);
      assert files == files[..last] + [files[last]];
      hide DeleteFile, FilesDeleted;
      FilesDeletedOneByOne(p.db, p1.db, DeleteFile(p1, repo, files[last]).db, repo, files[..last], files[last]);
    }
  }

  lemma DeleteFileTakes(p: Progress, repo: nat, file: string)
    requires DeleteFile(p, repo, file).ok
    ensures p.ok
    ensures var ids := ServicesIn(p.db.services, p.db.nextService, repo, file);
            var gone := set id | id in ids;
            DeleteFile(p, repo, file).db
            == p.db.(services := p.db.services - gone,
                     connections := p.db.connections - Touching(p.db.connections, gone))
  {
    hide ServicesIn, DeleteConnectionsOf;
    DeleteConnectionsOfEffect(p, ServicesIn(p.db.services, p.db.nextService, repo, file));
    hide Touching;
  }

  lemma DeleteFileEffect(p: Progress, repo: nat, file: string)
    requires WellFormed(p.db) && DeleteFile(p, repo, file).ok
    ensures p.ok
    ensures FilesDeleted(p.db, DeleteFile(p, repo, file).db, repo, [file])
  {
    hide ServicesIn, DeleteFile;
    DeleteFileTakes(p, repo, file);
    assert IdsBelow(p.db.services, p.db.nextService) && NoDangling(p.db.connections, p.db.services);
    hide WellFormed;
    var ids := ServicesIn(p.db.services, p.db.nextService, repo, file);
    var gone := set id | id in ids;
    var q := DeleteFile(p, repo, file).db;
    forall s: nat | s in p.db.services ensures s in gone <==> DefinedIn(p.db.services[s], repo, [file]) {
      assert s in ids <==> s < p.db.nextService && Defines(p.db.services, s, repo, file);
    }
    assert q.connections == Among(p.db.connections, q.services.Keys);
  }
}
