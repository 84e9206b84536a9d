// The scan tables of the impact-map database and the SQL statements the scan pipeline runs on them,
// each as a function from tables to tables. A table is a map from row id to row with its
// AUTOINCREMENT counter; a statement that a UNIQUE index or a foreign key rejects is Thrown and,
// as in SQLite, leaves no trace.
module ScanTables {
  import opened Common

  datatype ScanVersion = ScanVersion(repo: nat, startedAt: int, completedAt: Option<int>)

  datatype Service = Service(repo: nat, name: string, rootPath: string, language: string, kind: string,
                             boundaryEntry: Option<string>, basePath: Option<string>,
                             sourceFile: Option<string>, version: Option<nat>)

  datatype Details = Details(sourceFile: Option<string>, targetFile: Option<string>,
                             sourceSymbol: Option<string>, targetSymbol: Option<string>,
                             crossing: Option<string>, confidence: Option<string>, evidence: Option<string>)

  datatype Connection = Connection(source: nat, target: nat, protocol: string, protocolRaw: Option<string>,
                                   verb: Option<string>, path: Option<string>, pathTemplate: Option<string>,
                                   details: Details, version: Option<nat>)

  datatype Schema = Schema(connection: nat, role: string, name: string, file: Option<string>)

  datatype Field = Field(schema: nat, name: string, kind: string, required: bool)

  datatype OverrideKind = OnConnection | OnService
  datatype OverrideAction = Delete | Update | Rename | SetBasePath

  // The payload column as JSON.parse reads it. Any JSON value but null answers property lookups;
  // a property of the wrong type counts as absent. (A negative service id names no row, like any other
  // unknown id, so ids are nat.)
  datatype Payload =
    | NotJson
    | JsonNull
    | Json(newName: Option<string>, basePath: Option<string>, source: Option<nat>, target: Option<nat>,
           evidence: Option<string>)

  datatype Override = Override(kind: OverrideKind, action: OverrideAction, target: nat, payload: Payload,
                               stamp: Option<nat>)

  // scan_overrides rows are never deleted and are read in insertion order, so the table is a sequence.
  datatype Tables = Tables(
    repos: set<nat>,
    versions: map<nat, ScanVersion>, nextVersion: nat,
    services: map<nat, Service>, nextService: nat,
    connections: map<nat, Connection>, nextConnection: nat,
    schemas: map<nat, Schema>, nextSchema: nat,
    fields: map<nat, Field>, nextField: nat,
    overrides: seq<Override>)

  const EMPTY: Tables := Tables({}, map[], 1, map[], 1, map[], 1, map[], 1, map[], 1, [])

  // ---------------------------------------------------------------- lookups

  predicate IsService(services: map<nat, Service>, id: nat, repo: nat, name: string) {
    id in services && services[id].repo == repo && services[id].name == name
  }

  predicate IsNamed(services: map<nat, Service>, id: nat, name: string) {
    id in services && services[id].name == name
  }

  // SELECT id FROM services WHERE repo_id = ? AND name = ?, among ids below the bound
  function FindService(services: map<nat, Service>, bound: nat, repo: nat, name: string): (r: Option<nat>)
    ensures r.Some? ==> r.value < bound && IsService(services, r.value, repo, name)
                        && forall id: nat :: id < r.value ==> !IsService(services, id, repo, name)
    ensures r.None? ==> forall id: nat :: id < bound ==> !IsService(services, id, repo, name)
  {
    if bound == 0 then None
    else
      var lower := FindService(services, bound - 1, repo, name);
      if lower.Some? then lower
      else if IsService(services, bound - 1, repo, name) then Some(bound - 1) else None
  }

  // SELECT id FROM services WHERE name = ?: the first row
  function FindByName(services: map<nat, Service>, bound: nat, name: string): (r: Option<nat>)
    ensures r.Some? ==> r.value < bound && IsNamed(services, r.value, name)
                        && forall id: nat :: id < r.value ==> !IsNamed(services, id, name)
    ensures r.None? ==> forall id: nat :: id < bound ==> !IsNamed(services, id, name)
  {
    if bound == 0 then None
    else
      var lower := FindByName(services, bound - 1, name);
      if lower.Some? then lower
      else if IsNamed(services, bound - 1, name) then Some(bound - 1) else None
  }

  // _resolveServiceId: the repo's own service of that name, else the first one anywhere.
  function Resolve(db: Tables, repo: nat, name: string): Option<nat> {
    var own := FindService(db.services, db.nextService, repo, name);
    if own.Some? then own else FindByName(db.services, db.nextService, name)
  }

  predicate IsCompleted(versions: map<nat, ScanVersion>, id: nat, repo: nat) {
    id in versions && versions[id].repo == repo && versions[id].completedAt.Some?
  }

  // SELECT id ... WHERE repo_id = ? AND completed_at IS NOT NULL ORDER BY id DESC LIMIT 1
  function LatestCompleted(versions: map<nat, ScanVersion>, bound: nat, repo: nat): (r: Option<nat>)
    ensures r.Some? ==> r.value < bound && IsCompleted(versions, r.value, repo)
                        && forall id: nat :: r.value < id < bound ==> !IsCompleted(versions, id, repo)
    ensures r.None? ==> forall id: nat :: id < bound ==> !IsCompleted(versions, id, repo)
  {
    if bound == 0 then None
    else if IsCompleted(versions, bound - 1, repo) then Some(bound - 1)
    else LatestCompleted(versions, bound - 1, repo)
  }

  // The columns of the UNIQUE index uq_connections_dedup. NULLs are distinct there, so only a key
  // with both a method and a path can clash.
  datatype Key = Key(source: nat, target: nat, protocol: string, verb: Option<string>, path: Option<string>)

  function KeyOf(c: Connection): Key {
    Key(c.source, c.target, c.protocol, c.verb, c.path)
  }

  predicate Concrete(k: Key) {
    k.verb.Some? && k.path.Some?
  }

  predicate HasKey(connections: map<nat, Connection>, id: nat, k: Key) {
    id in connections && KeyOf(connections[id]) == k
  }

  // SELECT path_template FROM connections WHERE (the five key columns match, NULL IS NULL) LIMIT 1
  function FindTemplate(connections: map<nat, Connection>, bound: nat, k: Key): (r: Option<string>)
    ensures (forall id: nat :: id < bound ==> !HasKey(connections, id, k)) ==> r == None
    ensures (exists id: nat :: id < bound && HasKey(connections, id, k)) ==>
              exists id: nat :: id < bound && HasKey(connections, id, k) && r == connections[id].pathTemplate
  {
    if bound == 0 then None
    else if exists id: nat :: id < bound - 1 && HasKey(connections, id, k) then FindTemplate(connections, bound - 1, k)
    else if HasKey(connections, bound - 1, k) then connections[bound - 1].pathTemplate
    else None
  }

  predicate Touches(c: Connection, ids: set<nat>) {
    c.source in ids || c.target in ids
  }

  predicate HasSchema(schemas: map<nat, Schema>, connections: set<nat>) {
    exists s :: s in schemas && schemas[s].connection in connections
  }

  // ---------------------------------------------------------------- statements

  // DELETE FROM connections WHERE id IN (...)
  function DeleteConnections(db: Tables, ids: set<nat>): Outcome<Tables> {
    if HasSchema(db.schemas, ids) then Thrown
    else Done(db.(connections := db.connections - ids))
  }

  function Touching(connections: map<nat, Connection>, services: set<nat>): set<nat> {
    set c | c in connections && Touches(connections[c], services)
  }

  // DELETE FROM services WHERE id IN (...); the tables that cascade are not modelled
  function DeleteServices(db: Tables, ids: set<nat>): Outcome<Tables> {
    if exists c :: c in db.connections && Touches(db.connections[c], ids) then Thrown
    else Done(db.(services := db.services - ids))
  }

  // INSERT ... ON CONFLICT(repo_id, name) DO UPDATE
  function UpsertService(db: Tables, row: Service): Tables {
    var existing := FindService(db.services, db.nextService, row.repo, row.name);
    if existing.Some? then db.(services := db.services[existing.value := row])
    else db.(services := db.services[db.nextService := row], nextService := db.nextService + 1)
  }

  function Replaced(connections: map<nat, Connection>, k: Key): set<nat> {
    if Concrete(k) then set c | c in connections && KeyOf(connections[c]) == k else {}
  }

  // INSERT OR REPLACE INTO connections: a row with the same concrete key is deleted first, which the
  // foreign key of schemas forbids while the old row still has schemas
  function UpsertConnection(db: Tables, row: Connection): Outcome<Tables> {
    if row.source !in db.services || row.target !in db.services then Thrown
    else
      var replaced := Replaced(db.connections, KeyOf(row));
      if HasSchema(db.schemas, replaced) then Thrown
      else Done(db.(connections := (db.connections - replaced)[db.nextConnection := row],
                    nextConnection := db.nextConnection + 1))
  }

  // INSERT INTO schemas
  function InsertSchema(db: Tables, row: Schema): Outcome<Tables> {
    if row.connection !in db.connections then Thrown
    else Done(db.(schemas := db.schemas[db.nextSchema := row], nextSchema := db.nextSchema + 1))
  }

  // INSERT INTO fields
  function InsertField(db: Tables, row: Field): Outcome<Tables> {
    if row.schema !in db.schemas then Thrown
    else Done(db.(fields := db.fields[db.nextField := row], nextField := db.nextField + 1))
  }

  function Abandoned(versions: map<nat, ScanVersion>, repo: nat, cutoff: int): set<nat> {
    set v | v in versions && versions[v].repo == repo && versions[v].completedAt.None? && versions[v].startedAt < cutoff
  }

  function ClearStamps(overrides: seq<Override>, versions: set<nat>): (r: seq<Override>)
    ensures |r| == |overrides|
    ensures forall i :: 0 <= i < |r| ==>
              r[i] == if overrides[i].stamp.Some? && overrides[i].stamp.value in versions
                      then overrides[i].(stamp := None) else overrides[i]
  {
    seq(|overrides|, i requires 0 <= i < |overrides| =>
        if overrides[i].stamp.Some? && overrides[i].stamp.value in versions
        then overrides[i].(stamp := None) else overrides[i])
  }

  // cleanupAbandonedScanVersions: uncompleted rows started before the cutoff go, and stamps naming
  // them become NULL; a foreign-key failure is swallowed
  function CleanupAbandoned(db: Tables, repo: nat, cutoff: int): Tables {
    var gone := Abandoned(db.versions, repo, cutoff);
    if (exists s :: s in db.services && db.services[s].version.Some? && db.services[s].version.value in gone)
       || (exists c :: c in db.connections && db.connections[c].version.Some?
                       && db.connections[c].version.value in gone)
    then db
    else db.(versions := db.versions - gone, overrides := ClearStamps(db.overrides, gone))
  }

  // beginScan
  function BeginScan(db: Tables, repo: nat, startedAt: int, cutoff: int): Outcome<Tables> {
    var clean := CleanupAbandoned(db, repo, cutoff);
    if repo !in clean.repos then Thrown
    else Done(clean.(versions := clean.versions[clean.nextVersion := ScanVersion(repo, startedAt, None)],
                     nextVersion := clean.nextVersion + 1))
  }

  // _restampExistingRows: services stamped by the previous scan move to this one, then the
  // connections so stamped whose source is a service of this repo
  function RestampServices(services: map<nat, Service>, repo: nat, previous: nat, version: nat): map<nat, Service> {
    map s | s in services ::
      if services[s].repo == repo && services[s].version == Some(previous) then services[s].(version := Some(version))
      else services[s]
  }

  function RestampConnections(connections: map<nat, Connection>, services: map<nat, Service>, repo: nat,
                              previous: nat, version: nat): map<nat, Connection>
  {
    map c | c in connections ::
      if connections[c].source in services && services[connections[c].source].repo == repo
         && connections[c].version == Some(previous)
      then connections[c].(version := Some(version)) else connections[c]
  }

  function Restamp(db: Tables, repo: nat, version: nat): Tables {
    match LatestCompleted(db.versions, db.nextVersion, repo)
    case None => db
    case Some(previous) =>
      var services := RestampServices(db.services, repo, previous, version);
      db.(services := services,
          connections := RestampConnections(db.connections, services, repo, previous, version))
  }

  // ---------------------------------------------------------------- the declared constraints

  predicate UniqueNames(services: map<nat, Service>) {
    forall a, b | a in services && b in services
      :: services[a].repo == services[b].repo && services[a].name == services[b].name ==> a == b
  }

  predicate NoDangling(connections: map<nat, Connection>, services: map<nat, Service>) {
    forall c :: c in connections ==> connections[c].source in services && connections[c].target in services
  }

  predicate UniqueKeys(connections: map<nat, Connection>) {
    forall a, b | a in connections && b in connections
      :: KeyOf(connections[a]) == KeyOf(connections[b]) && Concrete(KeyOf(connections[a])) ==> a == b
  }

  predicate SchemasOwned(schemas: map<nat, Schema>, connections: map<nat, Connection>) {
    forall s :: s in schemas ==> schemas[s].connection in connections
  }

  predicate FieldsOwned(fields: map<nat, Field>, schemas: map<nat, Schema>) {
    forall f :: f in fields ==> fields[f].schema in schemas
  }

  predicate ServicesRefer(services: map<nat, Service>, repos: set<nat>) {
    forall s :: s in services ==> services[s].repo in repos
  }

  predicate StampsRefer(overrides: seq<Override>, versions: map<nat, ScanVersion>) {
    forall i :: 0 <= i < |overrides| && overrides[i].stamp.Some? ==> overrides[i].stamp.value in versions
  }

  predicate IdsBelow<T>(table: map<nat, T>, next: nat) {
    forall id :: id in table ==> 0 < id < next
  }

  predicate Counters(db: Tables) {
    && IdsBelow(db.versions, db.nextVersion) && IdsBelow(db.services, db.nextService)
    && IdsBelow(db.connections, db.nextConnection) && IdsBelow(db.schemas, db.nextSchema)
    && IdsBelow(db.fields, db.nextField)
    && db.nextVersion > 0 && db.nextService > 0 && db.nextConnection > 0 && db.nextSchema > 0 && db.nextField > 0
  }

  // What the schema declares: primary keys below their counters, UNIQUE indexes, foreign keys.
  predicate WellFormed(db: Tables) {
    && Counters(db)
    && UniqueNames(db.services)
    && NoDangling(db.connections, db.services)
    && UniqueKeys(db.connections)
    && SchemasOwned(db.schemas, db.connections)
    && FieldsOwned(db.fields, db.schemas)
    && ServicesRefer(db.services, db.repos)
    && StampsRefer(db.overrides, db.versions)
  }
}
