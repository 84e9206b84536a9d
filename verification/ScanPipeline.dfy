// The scan write pipeline as functions of the tables: persistFindings, the override pass, endScan,
// the transaction around them and the deleted-file cleanup after it. ScanEngine holds the
// statement-by-statement form that is proved equal to these.
module ScanPipeline {
  import opened Common
  import opened Text
  import Paths
  import opened ScanTables

  // ---------------------------------------------------------------- findings

  // "" stands for a property that is missing, null or empty.
  datatype ServiceFinding = ServiceFinding(name: string, rootPath: string, language: string, kind: string,
                                           boundaryEntry: string, basePath: string, sourceFile: string)

  datatype ConnectionFinding = ConnectionFinding(source: string, target: string, protocol: string,
                                                 verb: string, path: string, details: Details)

  datatype FieldFinding = FieldFinding(name: string, kind: string, required: bool)

  datatype SchemaFinding = SchemaFinding(connectionIndex: Option<int>, role: string, name: string,
                                         file: string, fields: seq<FieldFinding>)

  // rejected: the connection indices whose evidence is not in the cited file.
  datatype Findings = Findings(services: seq<ServiceFinding>, connections: seq<ConnectionFinding>,
                               schemas: seq<SchemaFinding>, rejected: set<nat>)

  function OrDefault(s: string, default: string): string {
    if s == "" then default else s
  }

  // ---------------------------------------------------------------- services

  function ServiceRow(repo: nat, f: ServiceFinding, version: nat): Service {
    Service(repo, f.name, OrDefault(f.rootPath, "."), OrDefault(f.language, "unknown"), OrDefault(f.kind, "service"),
            OrNull(f.boundaryEntry), OrNull(f.basePath), OrNull(f.sourceFile), Some(version))
  }

  function PersistServices(db: Tables, repo: nat, fs: seq<ServiceFinding>, version: nat): Tables {
    if fs == [] then db
    else
      var last := |fs| - 1;
      UpsertService(PersistServices(db, repo, fs[..last], version), ServiceRow(repo, fs[last], version))
  }

  // ---------------------------------------------------------------- connections

  // _mergePathTemplates
  function MergePathTemplates(existing: Option<string>, template: Option<string>): Option<string> {
    if template == None || template == Some("") then existing
    else if existing == None || existing == Some("") then template
    else
      var parts := NonEmpty(TrimAll(Split(existing.value, ',')));
      if template.value in parts then existing else Some(Join(parts + [template.value], ','))
  }

  function TrimAll(parts: seq<string>): (r: seq<string>)
    ensures |r| == |parts| && forall i :: 0 <= i < |r| ==> r[i] == Trim(parts[i])
  {
    seq(|parts|, i requires 0 <= i < |parts| => Trim(parts[i]))
  }

  function NonEmpty(parts: seq<string>): seq<string> {
    if parts == [] then [] else (if parts[0] == "" then [] else [parts[0]]) + NonEmpty(parts[1..])
  }

  // The key a finding is stored under, once its two services are known.
  function FindingKey(source: nat, target: nat, f: ConnectionFinding): Key {
    Key(source, target, Paths.CanonicalProtocol(f.protocol), OrNull(f.verb), Paths.CanonicalizePath(OrNull(f.path)))
  }

  function ConnectionRow(db: Tables, source: nat, target: nat, f: ConnectionFinding, version: nat): Connection {
    var key := FindingKey(source, target, f);
    Connection(source, target, key.protocol, OrNull(f.protocol), key.verb, key.path,
               MergePathTemplates(FindTemplate(db.connections, db.nextConnection, key), OrNull(f.path)),
               f.details, Some(version))
  }

  // The tables, and connIdByIndex: the row id each stored finding got.
  datatype Stored = Stored(db: Tables, ids: map<nat, nat>)

  // An unknown source, an unknown target or rejected evidence skips the finding.
  function PersistConnection(st: Stored, repo: nat, f: ConnectionFinding, index: nat, rejected: set<nat>, version: nat)
    : Outcome<Stored>
  {
    var source := Resolve(st.db, repo, f.source);
    var target := Resolve(st.db, repo, f.target);
    if source.None? || target.None? || index in rejected then Done(st)
    else
      match UpsertConnection(st.db, ConnectionRow(st.db, source.value, target.value, f, version))
      case Thrown => Thrown
      case Done(db) => Done(Stored(db, st.ids[index := st.db.nextConnection]))
  }

  function PersistConnections(db: Tables, repo: nat, cs: seq<ConnectionFinding>, rejected: set<nat>, version: nat)
    : Outcome<Stored>
  {
    if cs == [] then Done(Stored(db, map[]))
    else
      var last := |cs| - 1;
      match PersistConnections(db, repo, cs[..last], rejected, version)
      case Thrown => Thrown
      case Done(st) => PersistConnection(st, repo, cs[last], last, rejected, version)
  }

  // ---------------------------------------------------------------- schemas and fields

  function FieldRow(schema: nat, f: FieldFinding): Field {
    Field(schema, f.name, OrDefault(f.kind, "unknown"), f.required)
  }

  function PersistFields(db: Tables, schema: nat, fs: seq<FieldFinding>): Outcome<Tables> {
    if fs == [] then Done(db)
    else
      match PersistFields(db, schema, fs[..|fs| - 1])
      case Thrown => Thrown
      case Done(db1) => InsertField(db1, FieldRow(schema, fs[|fs| - 1]))
  }

  // Only a schema whose connection_index names a stored finding is written.
  function PersistSchema(db: Tables, ids: map<nat, nat>, s: SchemaFinding): Outcome<Tables> {
    if s.connectionIndex.None? || s.connectionIndex.value !in ids then Done(db)
    else
      match InsertSchema(db, Schema(ids[s.connectionIndex.value], s.role, s.name, OrNull(s.file)))
      case Thrown => Thrown
      case Done(db1) => PersistFields(db1, db.nextSchema, s.fields)
  }

  function PersistSchemas(db: Tables, ids: map<nat, nat>, ss: seq<SchemaFinding>): Outcome<Tables> {
    if ss == [] then Done(db)
    else
      match PersistSchemas(db, ids, ss[..|ss| - 1])
      case Thrown => Thrown
      case Done(db1) => PersistSchema(db1, ids, ss[|ss| - 1])
  }

  function PersistFindings(db: Tables, repo: nat, f: Findings, version: nat): Outcome<Tables> {
    match PersistConnections(PersistServices(db, repo, f.services, version), repo, f.connections, f.rejected, version)
    case Thrown => Thrown
    case Done(st) => PersistSchemas(st.db, st.ids, f.schemas)
  }

  // ---------------------------------------------------------------- overrides

  // KIND_ACTION_MATRIX
  predicate Allowed(o: Override) {
    match o.kind
    case OnConnection => o.action.Delete? || o.action.Update?
    case OnService => o.action.Delete? || o.action.Rename? || o.action.SetBasePath?
  }

  // _applyOne. Reading a property of a null payload throws; a missing target changes nothing.
  function ApplyOne(db: Tables, o: Override): Outcome<Tables> {
    if o.kind.OnConnection? && o.action.Delete? then DeleteConnections(db, {o.target})
    else if o.kind.OnService? && o.action.Delete? then Evict(db, {o.target})
    else if o.payload.JsonNull? then Thrown
    else if !o.payload.Json? then Done(db)
    else if o.kind.OnService? && o.action.Rename? then RenameService(db, o.target, o.payload.newName)
    else if o.kind.OnService? && o.action.SetBasePath? then Done(SetServiceBasePath(db, o.target, o.payload.basePath))
    else if o.kind.OnConnection? && o.action.Update? then UpdateConnection(db, o.target, o.payload)
    else Done(db)
  }

  // DELETE connections touching the services, then DELETE the services
  function Evict(db: Tables, services: set<nat>): Outcome<Tables> {
    match DeleteConnections(db, Touching(db.connections, services))
    case Thrown => Thrown
    case Done(db1) => DeleteServices(db1, services)
  }

  // UPDATE services SET base_path = ? WHERE id = ?; the empty string clears it
  function SetServiceBasePath(db: Tables, id: nat, basePath: Option<string>): Tables {
    if id !in db.services then db
    else
      var value := if basePath == Some("") then None else basePath;
      db.(services := db.services[id := db.services[id].(basePath := value)])
  }

  // UPDATE services SET name = ? WHERE id = ?, under UNIQUE(repo_id, name)
  function RenameService(db: Tables, id: nat, newName: Option<string>): Outcome<Tables> {
    if newName.None? || Trim(newName.value) == "" || id !in db.services then Done(db)
    else
      var name := Trim(newName.value);
      if exists other :: other in db.services && other != id
          && IsService(db.services, other, db.services[id].repo, name) then Thrown
      else Done(db.(services := db.services[id := db.services[id].(name := name)]))
  }

  // UPDATE connections SET ... WHERE id = ?, under the foreign keys and the dedup index
  function UpdateConnection(db: Tables, id: nat, p: Payload): Outcome<Tables>
    requires p.Json?
  {
    if (p.source.None? && p.target.None? && p.evidence.None?) || id !in db.connections then Done(db)
    else
      var row := Updated(db.connections[id], p);
      if row.source !in db.services || row.target !in db.services then Thrown
      else if Replaced(db.connections, KeyOf(row)) - {id} != {} then Thrown
      else Done(db.(connections := db.connections[id := row]))
  }

  function Updated(c: Connection, p: Payload): Connection
    requires p.Json?
  {
    c.(source := p.source.GetOr(c.source), target := p.target.GetOr(c.target),
       details := if p.evidence.Some? then c.details.(evidence := p.evidence) else c.details)
  }

  // How many statements _applyOne runs for an override before it is stamped.
  function MutationSize(o: Override): nat {
    if o.kind.OnService? && o.action.Delete? then 2
    else if o.kind.OnConnection? && o.action.Delete? then 1
    else if !o.payload.Json? then 0
    else if o.action.Rename? && (o.payload.newName.None? || Trim(o.payload.newName.value) == "") then 0
    else if o.action.Update? && o.payload.source.None? && o.payload.target.None? && o.payload.evidence.None? then 0
    else 1
  }

  // What an override's statements leave when statement `fault` of them fails, and whether all of them ran. A failure
  // is caught by the pass, so the statements before it stay.
  datatype Mutation = Mutation(db: Tables, completed: bool)

  function RunOne(db: Tables, after: Outcome<Tables>, fails: bool): Mutation {
    if fails || after.Thrown? then Mutation(db, false) else Mutation(after.value, true)
  }

  function Mutate(db: Tables, o: Override, fault: Option<nat>): Mutation {
    if o.kind.OnService? && o.action.Delete? then
      var m := RunOne(db, DeleteConnections(db, Touching(db.connections, {o.target})), fault == Some(0));
      if m.completed then RunOne(m.db, DeleteServices(m.db, {o.target}), fault == Some(1)) else m
    else RunOne(db, ApplyOne(db, o), fault == Some(0) && MutationSize(o) == 1)
  }

  // The pass so far: the overrides stamped, in order; those whose statements ran but whose stamp failed; and the
  // two other counters.
  datatype Pass = Pass(db: Tables, applied: seq<nat>, unstamped: seq<nat>, skipped: nat, errors: nat)

  function ApplyOverride(p: Pass, i: nat, version: nat, fault: Option<nat>): (r: Pass)
    requires i < |p.db.overrides|
  {
    var o := p.db.overrides[i];
    if !Allowed(o) || o.payload.NotJson? then p.(skipped := p.skipped + 1)
    else
      var m := Mutate(p.db, o, fault);
      if !m.completed then p.(db := m.db, errors := p.errors + 1)
      else if fault == Some(MutationSize(o)) then p.(db := m.db, errors := p.errors + 1, unstamped := p.unstamped + [i])
      else p.(db := m.db.(overrides := p.db.overrides[i := o.(stamp := Some(version))]), applied := p.applied + [i])
  }

  // faults[i] is the statement of override i that fails.
  function FaultOf(faults: map<nat, nat>, i: nat): Option<nat> {
    if i in faults then Some(faults[i]) else None
  }

  // The loop over the rows that were pending when the pass began, up to row k.
  function ApplyFirst(db: Tables, k: nat, version: nat, faults: map<nat, nat>): (r: Pass)
    requires k <= |db.overrides|
    ensures |r.db.overrides| == |db.overrides|
  {
    if k == 0 then Pass(db, [], [], 0, 0)
    else
      var p := ApplyFirst(db, k - 1, version, faults);
      MutateKeepsOverrides(p.db, p.db.overrides[k - 1], FaultOf(faults, k - 1));
      if db.overrides[k - 1].stamp.Some? then p else ApplyOverride(p, k - 1, version, FaultOf(faults, k - 1))
  }

  lemma NothingApplied(db: Tables, version: nat, faults: map<nat, nat>)
    ensures ApplyFirst(db, 0, version, faults) == Pass(db, [], [], 0, 0)
  {
  }

  lemma {:induction false} ApplyNext(db: Tables, k: nat, version: nat, faults: map<nat, nat>)
    requires 0 < k <= |db.overrides|
    ensures var p := ApplyFirst(db, k - 1, version, faults);
            ApplyFirst(db, k, version, faults)
              == if db.overrides[k - 1].stamp.Some? then p else ApplyOverride(p, k - 1, version, FaultOf(faults, k - 1))
  {
    hide ApplyOverride, FaultOf;
  }

  lemma MutateKeepsOverrides(db: Tables, o: Override, fault: Option<nat>)
    ensures Mutate(db, o, fault).db.overrides == db.overrides
  {
    hide HasSchema, Touching, Touches, Trim, MutationSize, IsService, Replaced, Updated;
  }

  function ApplyPendingOverrides(db: Tables, version: nat, faults: map<nat, nat>): Pass {
    ApplyFirst(db, |db.overrides|, version, faults)
  }

  // ---------------------------------------------------------------- endScan

  predicate Owned(db: Tables, c: Connection, repo: nat) {
    c.source in db.services && db.services[c.source].repo == repo
  }

  function Unstamped(db: Tables, repo: nat, version: nat): set<nat> {
    set c | c in db.connections && Owned(db, db.connections[c], repo) && db.connections[c].version != Some(version)
  }

  // Schemas and fields of this repo's connections that this scan did not stamp
  function DeleteUnstampedSchemas(db: Tables, repo: nat, version: nat): Tables {
    var unstamped := Unstamped(db, repo, version);
    var schemas := map s | s in db.schemas && db.schemas[s].connection !in unstamped :: db.schemas[s];
    db.(fields := map f | f in db.fields && (db.fields[f].schema in schemas || db.fields[f].schema !in db.schemas)
                    :: db.fields[f],
        schemas := schemas)
  }

  function Stale(services: map<nat, Service>, repo: nat, version: nat): set<nat> {
    set s | s in services && services[s].repo == repo && services[s].version.Some?
            && services[s].version != Some(version)
  }

  function Unversioned(services: map<nat, Service>, repo: nat): set<nat> {
    set s | s in services && services[s].repo == repo && services[s].version.None?
  }

  // The closing orphan cleanup; its second statement fails, and is swallowed, when a field still
  // refers to a schema it would delete
  function DeleteOrphans(db: Tables): Tables {
    var fields := FieldsOf(db.fields, db.schemas);
    var orphans := Orphans(db.schemas, db.connections);
    db.(fields := fields,
        schemas := if exists f :: f in fields && fields[f].schema in orphans then db.schemas
                   else db.schemas - orphans)
  }

  function FieldsOf(fields: map<nat, Field>, schemas: map<nat, Schema>): map<nat, Field> {
    map f | f in fields && fields[f].schema in schemas :: fields[f]
  }

  function Orphans(schemas: map<nat, Schema>, connections: map<nat, Connection>): set<nat> {
    set s | s in schemas && schemas[s].connection !in connections
  }

  function EndScan(db: Tables, repo: nat, version: nat, now: int): Outcome<Tables> {
    var cleaned := DeleteUnstampedSchemas(db, repo, version);
    match Evict(cleaned, Stale(cleaned.services, repo, version))
    case Thrown => Thrown
    case Done(db1) =>
      match Evict(db1, Unversioned(db1.services, repo))
      case Thrown => Thrown
      case Done(db2) =>
        var db3 := DeleteOrphans(db2);
        if version !in db3.versions then Done(db3)
        else Done(db3.(versions := db3.versions[version := db3.versions[version].(completedAt := Some(now))]))
  }

  // ---------------------------------------------------------------- persistScanResult

  datatype Mode = Full | Incremental

  // deleted: changedFiles.deleted followed by the `from` side of changedFiles.renamed. faults: the override statements
  // that fail by themselves, whatever the reason; the pass catches that.
  datatype Scan = Scan(repo: nat, findings: Findings, mode: Mode, deleted: seq<string>,
                       startedAt: int, cutoff: int, now: int, faults: map<nat, nat>)

  function AfterBegin(db: Tables, s: Scan): Outcome<Tables> {
    match BeginScan(db, s.repo, s.startedAt, s.cutoff)
    case Thrown => Thrown
    case Done(db1) =>
      Done(if s.mode.Incremental? then Restamp(db1, s.repo, db1.nextVersion - 1) else db1)
  }

  function AfterFindings(db: Tables, s: Scan): Outcome<Tables> {
    match AfterBegin(db, s)
    case Thrown => Thrown
    case Done(db1) => PersistFindings(db1, s.repo, s.findings, NewVersion(db, s))
  }

  // The id beginScan hands out; the cleanup before it does not move the counter.
  function NewVersion(db: Tables, s: Scan): nat {
    db.nextVersion
  }

  // The body of the write transaction.
  function WriteTx(db: Tables, s: Scan): Outcome<Tables> {
    match AfterFindings(db, s)
    case Thrown => Thrown
    case Done(db1) => EndScan(ApplyPendingOverrides(db1, NewVersion(db, s), s.faults).db, s.repo, NewVersion(db, s),
                              s.now)
  }

  // ---------------------------------------------------------------- deleted-file cleanup

  // The cleanup runs outside the transaction, so a failure leaves the statements before it in place:
  // the tables, how many more statements the engine would run, and whether it came this far.
  datatype Progress = Progress(db: Tables, budget: nat, ok: bool)

  function Defines(services: map<nat, Service>, id: nat, repo: nat, file: string): bool {
    id in services && services[id].repo == repo && services[id].sourceFile == Some(file)
  }

  // SELECT id FROM services WHERE repo_id = ? AND source_file = ?
  function ServicesIn(services: map<nat, Service>, bound: nat, repo: nat, file: string): (ids: seq<nat>)
    ensures forall id: nat :: id in ids <==> id < bound && Defines(services, id, repo, file)
  {
    if bound == 0 then []
    else
      ServicesIn(services, bound - 1, repo, file)
      + (if Defines(services, bound - 1, repo, file) then [bound - 1] else [])
  }

  function RunStatement(p: Progress, after: Outcome<Tables>): Progress {
    if !p.ok || p.budget == 0 then p.(ok := false)
    else
      match after
      case Thrown => Progress(p.db, p.budget - 1, false)
      case Done(db) => Progress(db, p.budget - 1, true)
  }

  function DeleteConnectionsOf(p: Progress, ids: seq<nat>): Progress {
    if ids == [] then p
    else
      var q := DeleteConnectionsOf(p, ids[..|ids| - 1]);
      RunStatement(q, DeleteConnections(q.db, Touching(q.db.connections, {ids[|ids| - 1]})))
  }

  function DeleteFile(p: Progress, repo: nat, file: string): Progress {
    var ids := ServicesIn(p.db.services, p.db.nextService, repo, file);
    var q := DeleteConnectionsOf(p, ids);
    RunStatement(q, DeleteServices(q.db, set id | id in ids))
  }

  // _deleteDeletedFileFindings
  function DeleteFiles(p: Progress, repo: nat, files: seq<string>): Progress {
    if files == [] then p else DeleteFile(DeleteFiles(p, repo, files[..|files| - 1]), repo, files[|files| - 1])
  }
}
