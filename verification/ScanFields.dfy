// The schemas and fields that a scan writes, column by column.
module ScanFields {
  import opened Common
  import opened ScanTables
  import opened ScanPipeline
  import opened ScanIntegrity
  import opened ScanRuns
  import opened ScanEffects
  import opened ScanTheorems
  import opened ScanFindings
  import opened ScanCommits
  import opened ScanNames
  import opened ScanReturns

  // ---------------------------------------------------------------- fields

  // The row of a field finding: a missing type is "unknown".
  ghost predicate IsField(row: Field, schema: nat, f: FieldFinding) {
    && row.schema == schema && row.name == f.name && row.required == f.required
    && row.kind == (if f.kind == "" then "unknown" else f.kind)
  }

  // Field finding j of the schema has row base + j.
  ghost predicate FieldAt(fields: map<nat, Field>, schema: nat, fs: seq<FieldFinding>, base: nat, j: nat)
    requires j < |fs|
  {
    base + j in fields && IsField(fields[base + j], schema, fs[j])
  }

  // The fields of the schema are rows base, base + 1, ..., one for each finding in order.
  ghost predicate HasFields(fields: map<nat, Field>, schema: nat, fs: seq<FieldFinding>, base: nat) {
    && (forall j: nat :: j < |fs| ==> FieldAt(fields, schema, fs, base, j))
    && (forall f :: f in fields && fields[f].schema == schema ==> base <= f < base + |fs|)
  }

  ghost predicate OldFieldsStay(before: map<nat, Field>, after: map<nat, Field>) {
    forall f :: f in before ==> f in after && after[f] == before[f]
  }

  lemma OneMoreField(fields: map<nat, Field>, schema: nat, fs: seq<FieldFinding>, base: nat, row: Field)
    requires fs != [] && HasFields(fields, schema, fs[..|fs| - 1], base) && IsField(row, schema, fs[|fs| - 1])
    requires base + |fs| - 1 !in fields
    ensures HasFields(fields[base + |fs| - 1 := row], schema, fs, base)
  {
    var front, after := fs[..|fs| - 1], fields[base + |fs| - 1 := row];
    forall j: nat | j < |fs| ensures FieldAt(after, schema, fs, base, j) {
      if j < |front| {
        assert FieldAt(fields, schema, front, base, j) && base + j != base + |fs| - 1;
      }
    }
    hide FieldAt;
  }

  lemma {:induction false} FieldsAreStored(db: Tables, schema: nat, fs: seq<FieldFinding>)
    requires schema in db.schemas && IdsBelow(db.fields, db.nextField)
    requires forall f :: f in db.fields ==> db.fields[f].schema != schema
    ensures PersistFields(db, schema, fs).Done?
    ensures var after := PersistFields(db, schema, fs).value;
            && after == db.(fields := after.fields, nextField := db.nextField + |fs|)
            && HasFields(after.fields, schema, fs, db.nextField) && OldFieldsStay(db.fields, after.fields)
            && (forall f :: f in after.fields && f !in db.fields ==> after.fields[f].schema == schema)
            && (forall f :: f in after.fields ==> f < after.nextField)
  {
    hide HasFields, IsField;
    if fs == [] {
      NoFields(db.fields, schema, db.nextField);
    } else {
      var front := fs[..|fs| - 1];
      FieldsAreStored(db, schema, front);
      var before := PersistFields(db, schema, front).value;
      var row := PersistFields(db, schema, fs).value.fields[before.nextField];
      WrittenField(before, schema, fs[|fs| - 1]);
      assert PersistFields(db, schema, fs).Done?;
      hide PersistFields;
      OneMoreField(before.fields, schema, fs, db.nextField, row);
    }
  }

  lemma NoFields(fields: map<nat, Field>, schema: nat, base: nat)
    requires forall f :: f in fields ==> fields[f].schema != schema
    ensures HasFields(fields, schema, [], base)
  {
  }

  lemma WrittenField(db: Tables, schema: nat, f: FieldFinding)
    requires schema in db.schemas
    ensures IsField(FieldRow(schema, f), schema, f)
    ensures InsertField(db, FieldRow(schema, f))
            == Done(db.(fields := db.fields[db.nextField := FieldRow(schema, f)], nextField := db.nextField + 1))
  {
  }

  // ---------------------------------------------------------------- schemas

  // Does the schema finding name a finding that has a connection?
  predicate Writes(ids: map<nat, nat>, s: SchemaFinding) {
    s.connectionIndex.Some? && s.connectionIndex.value in ids
  }

  // Where a schema finding is stored: the id of its row and the first id of its fields.
  datatype Place = Place(schema: nat, base: nat)

  // The row of a schema finding on connection c, and its fields.
  ghost predicate IsSchema(after: Tables, s: SchemaFinding, c: nat, at: Place) {
    && at.schema in after.schemas && HasFields(after.fields, at.schema, s.fields, at.base)
    && var row := after.schemas[at.schema];
       && row.connection == c && row.role == s.role && row.name == s.name
       && row.file == (if s.file == "" then None else Some(s.file))
  }

  ghost predicate NewSchema(db: Tables, after: Tables, ids: map<nat, nat>, s: SchemaFinding, at: Place) {
    && at.schema !in db.schemas && Writes(ids, s) && IsSchema(after, s, ids[s.connectionIndex.value], at)
  }

  ghost predicate OldSchemasStayPut(db: Tables, after: Tables) {
    && (forall x :: x in db.schemas ==> x in after.schemas && after.schemas[x] == db.schemas[x])
    && OldFieldsStay(db.fields, after.fields)
  }

  // What writing one schema adds.
  lemma SchemaIsStoredAt(db: Tables, ids: map<nat, nat>, s: SchemaFinding) returns (at: Place)
    requires WellFormed(db) && PersistSchema(db, ids, s).Done? && Writes(ids, s)
    ensures var after := PersistSchema(db, ids, s).value;
            && NewSchema(db, after, ids, s, at) && OldSchemasStayPut(db, after)
            && (forall x :: x in after.schemas ==> x in db.schemas || x == at.schema)
            && (forall f :: f in after.fields && f !in db.fields ==> after.fields[f].schema == at.schema)
  {
    at := Place(db.nextSchema, db.nextField);
    var c := ids[s.connectionIndex.value];
    var row := Schema(c, s.role, s.name, if s.file == "" then None else Some(s.file));
    assert IdsBelow(db.schemas, db.nextSchema) && IdsBelow(db.fields, db.nextField)
        && FieldsOwned(db.fields, db.schemas);
    hide WellFormed, HasFields;
    assert db.nextSchema !in db.schemas;
    var db1 := InsertSchema(db, row).value;
    assert InsertSchema(db, row).Done? && PersistSchema(db, ids, s) == PersistFields(db1, db.nextSchema, s.fields);
    FieldsAreStored(db1, db.nextSchema, s.fields);
  }

  // Every schema finding that names a stored finding has a place of its own, and nothing else is new.
  ghost predicate Placed(db: Tables, after: Tables, ids: map<nat, nat>, ss: seq<SchemaFinding>, at: map<nat, Place>) {
    && OldSchemasStayPut(db, after) && OnlyPlaces(db, after, at)
    && (forall q: nat :: q in at <==> q < |ss| && Writes(ids, ss[q]))
    && (forall q: nat :: q in at ==> NewSchema(db, after, ids, ss[q], at[q]))
    && (forall p: nat, q: nat :: p in at && q in at && p != q ==> at[p].schema != at[q].schema)
  }

  ghost predicate OnlyPlaces(db: Tables, after: Tables, at: map<nat, Place>) {
    && (forall x: nat :: x in after.schemas && x !in db.schemas ==> IsPlace(at, x))
    && (forall f: nat :: f in after.fields && f !in db.fields ==> IsPlace(at, after.fields[f].schema))
  }

  ghost predicate IsPlace(at: map<nat, Place>, x: nat) {
    exists q: nat :: q in at && at[q].schema == x
  }

  lemma SchemaStaysStored(db: Tables, before: Tables, after: Tables, ids: map<nat, nat>, s: SchemaFinding, at: Place,
                          later: nat)
    requires NewSchema(db, before, ids, s, at) && OldSchemasStayPut(before, after) && later !in before.schemas
    requires forall f :: f in after.fields && f !in before.fields ==> after.fields[f].schema == later
    ensures NewSchema(db, after, ids, s, at)
  {
    forall j: nat | j < |s.fields| ensures FieldAt(after.fields, at.schema, s.fields, at.base, j) {
      assert FieldAt(before.fields, at.schema, s.fields, at.base, j);
      hide IsField;
    }
    hide FieldAt;
  }

  lemma OnePlaceMore(db: Tables, before: Tables, after: Tables, ids: map<nat, nat>, ss: seq<SchemaFinding>,
                     at: map<nat, Place>, place: Place)
    requires ss != [] && Placed(db, before, ids, ss[..|ss| - 1], at)
    requires NewSchema(before, after, ids, ss[|ss| - 1], place) && OldSchemasStayPut(before, after)
    requires forall x :: x in after.schemas ==> x in before.schemas || x == place.schema
    requires forall f :: f in after.fields && f !in before.fields ==> after.fields[f].schema == place.schema
    ensures Placed(db, after, ids, ss, at[|ss| - 1 := place])
  {
    hide Writes, HasFields, OnlyPlaces, IsPlace;
    var front, last := ss[..|ss| - 1], |ss| - 1;
    forall q: nat | q in at ensures NewSchema(db, after, ids, ss[q], at[q]) && at[q].schema in before.schemas {
      assert ss[q] == front[q];
      SchemaStaysStored(db, before, after, ids, front[q], at[q], place.schema);
    }
    OnlyOneMore(db, before, after, at, last, place);
    assert at[last := place][last] == place;
    assert NewSchema(db, after, ids, ss[last], place);
    hide NewSchema;
  }

  lemma OnlyOneMore(db: Tables, before: Tables, after: Tables, at: map<nat, Place>, last: nat, place: Place)
    requires OnlyPlaces(db, before, at) && last !in at && OldSchemasStayPut(before, after)
    requires forall x :: x in after.schemas ==> x in before.schemas || x == place.schema
    requires forall f :: f in after.fields && f !in before.fields ==> after.fields[f].schema == place.schema
    ensures OnlyPlaces(db, after, at[last := place])
  {
    var more := at[last := place];
    forall x: nat | IsPlace(at, x) ensures IsPlace(more, x) {
      var q: nat :| q in at && at[q].schema == x;
      assert more[q] == at[q];
    }
    assert more[last] == place;
    assert IsPlace(more, place.schema);
    hide IsPlace;
  }

  lemma NoPlaceMore(db: Tables, after: Tables, ids: map<nat, nat>, ss: seq<SchemaFinding>, at: map<nat, Place>)
    requires ss != [] && Placed(db, after, ids, ss[..|ss| - 1], at) && !Writes(ids, ss[|ss| - 1])
    ensures Placed(db, after, ids, ss, at)
  {
    hide IsSchema;
  }

  // When the schemas are written, each schema finding whose index has a connection has its own new row with its role,
  // name and file, and that row has one field for each of the finding's, in order, and no other; nothing else is new.
  lemma {:induction false} SchemasAreStored(db: Tables, ids: map<nat, nat>, ss: seq<SchemaFinding>)
      returns (at: map<nat, Place>)
    requires WellFormed(db) && PersistSchemas(db, ids, ss).Done?
    ensures Placed(db, PersistSchemas(db, ids, ss).value, ids, ss, at)
  {
    hide WellFormed, PersistSchema, Placed;
    if ss == [] {
      at := map[];
      NothingPlaced(db, ids);
    } else {
      var front, last := ss[..|ss| - 1], |ss| - 1;
      at := SchemasAreStored(db, ids, front);
      var before := PersistSchemas(db, ids, front).value;
      PersistSchemasOnlyAdds(db, ids, front);
      var after := PersistSchemas(db, ids, ss).value;
      assert PersistSchema(before, ids, ss[last]) == Done(after);
      hide PersistSchemas, NewSchema, OldSchemasStayPut;
      if Writes(ids, ss[last]) {
        var place := SchemaIsStoredAt(before, ids, ss[last]);
        OnePlaceMore(db, before, after, ids, ss, at, place);
        at := at[last := place];
      } else {
        NothingWritten(before, ids, ss[last]);
        NoPlaceMore(db, after, ids, ss, at);
      }
    }
  }

  lemma NothingWritten(db: Tables, ids: map<nat, nat>, s: SchemaFinding)
    requires !Writes(ids, s)
    ensures PersistSchema(db, ids, s) == Done(db)
  {
  }

  lemma NothingPlaced(db: Tables, ids: map<nat, nat>)
    ensures Placed(db, db, ids, [], map[])
  {
  }

  // ---------------------------------------------------------------- after a committed scan

  // Schema finding q belongs to an evidenced finding that resolves.
  ghost predicate IsDeclared(db: Tables, s: Scan, q: nat) {
    exists i: nat :: Declared(db, s, i, q)
  }

  // Row c joins services with finding i's names, under its canonical protocol, method and path.
  ghost predicate IsCallOf(after: Tables, f: ConnectionFinding, c: nat) {
    && c in after.connections
    && var row := after.connections[c];
       && IsNamed(after.services, row.source, f.source) && IsNamed(after.services, row.target, f.target)
       && KeyOf(row) == FindingKey(row.source, row.target, f)
  }

  // The place of schema finding q after the scan: a new row on its own finding's new connection, with its fields.
  ghost predicate Stands(db: Tables, after: Tables, s: Scan, q: nat, at: Place)
    requires q < |s.findings.schemas|
  {
    && at.schema !in db.schemas
    && exists i: nat, c: nat :: Declared(db, s, i, q) && c !in db.connections
                                && IsCallOf(after, s.findings.connections[i], c)
                                && IsSchema(after, s.findings.schemas[q], c, at)
  }

  lemma WritesIfDeclared(db: Tables, s: Scan, d1: Tables, d2: Tables, st: Stored, d4: Tables, q: nat)
    requires Wrote(db, s, d1, d2, st, d4) && q < |s.findings.schemas|
    ensures Writes(st.ids, s.findings.schemas[q]) <==> IsDeclared(db, s, q)
    ensures Writes(st.ids, s.findings.schemas[q]) ==>
              var i := s.findings.schemas[q].connectionIndex.value; 0 <= i && Declared(db, s, i, q)
  {
    hide Settled, WellFormed, Stages, AfterBegin, ServicesAre, Known, PersistSchemas, StoredKey;
    var f := s.findings;
    IdsOfFindings(d2, s.repo, f.connections, f.rejected, db.nextVersion);
    hide PersistConnections;
    KeysInOrder(d2, s);
    hide KeysOf, KeyIn, RowOfIndex;
    var index := f.schemas[q].connectionIndex;
    if index.Some? && 0 <= index.value < |f.connections| {
      KeyByName(db, s, d2, index.value);
      assert Declared(db, s, index.value, q) ==> IsDeclared(db, s, q);
    }
  }

  lemma DeclaredRow(db: Tables, s: Scan, d1: Tables, d2: Tables, st: Stored, d4: Tables, i: nat, q: nat, x: nat)
    requires Wrote(db, s, d1, d2, st, d4) && Declared(db, s, i, q) && i in st.ids
    requires x in d4.schemas && d4.schemas[x].connection == st.ids[i]
    ensures RowOf(d2, d4, s, db.nextVersion, i, st.ids[i]) && st.ids[i] !in db.connections
  {
    hide Settled, Stages, AfterBegin, ServicesAre, Known, StoredKey, PersistSchemas;
    var f := s.findings;
    SchemaConnectionIsOld(d4, x);
    IdsOfFindings(d2, s.repo, f.connections, f.rejected, db.nextVersion);
    hide PersistConnections, WellFormed;
    KeysInOrder(d2, s);
    SchemasBefore(db, s, d1, d2, st, d4);
    hide KeysOf, KeyIn, ReplacedLater;
    assert RowOfIndex(KeysOf(d2, s.repo, f.connections, f.rejected), st, i);
    StoredIdsAreNew(db, s, d1, d2, st, d4, i);
  }

  // A schema on a new connection stands after endScan, and so does the connection.
  lemma NewSchemaOutlasts(db: Tables, s: Scan, d2: Tables, d4: Tables, i: nat, x: nat)
    requires ServicesAre(db, s, d2) && d4.services == d2.services && db.nextVersion in d4.versions
    requires Unblocked(d4, s.repo, db.nextVersion) && x in d4.schemas
    requires RowOf(d2, d4, s, db.nextVersion, i, d4.schemas[x].connection)
    ensures x in KeptSchemas(d4, s.repo, db.nextVersion)
    ensures IsCallOf(EndScanResult(d4, s.repo, db.nextVersion, s.now), s.findings.connections[i],
                     d4.schemas[x].connection)
  {
    KeyByName(db, s, d2, i);
    KeptSchemasSurvive(d4, s.repo, db.nextVersion);
    hide ServicesAre, Known, KeyIn, FindingKey, KeptSchemas, FieldsOf, Resolve;
    assert SurvivesCleanup(d4, d4.schemas[x], s.repo, db.nextVersion);
    assert !Blocks(d4, d4.schemas[x], s.repo, db.nextVersion);
    CurrentRowsSurvive(d4, s.repo, db.nextVersion, s.now, d4.schemas[x].connection);
    hide Current, EndScanResult, SurvivesCleanup;
  }

  // endScan takes no field from a schema it keeps.
  lemma FieldsOutlast(d4: Tables, repo: nat, n: nat, now: int, s: SchemaFinding, c: nat, at: Place)
    requires n in d4.versions && IsSchema(d4, s, c, at) && at.schema in KeptSchemas(d4, repo, n)
    ensures IsSchema(EndScanResult(d4, repo, n, now), s, c, at)
  {
    KeptSchemasSurvive(d4, repo, n);
    hide KeptSchemas, Among, Current;
    var after := EndScanResult(d4, repo, n, now);
    forall j: nat | j < |s.fields| ensures FieldAt(after.fields, at.schema, s.fields, at.base, j) {
      assert FieldAt(d4.fields, at.schema, s.fields, at.base, j);
    }
    hide FieldAt;
  }

  // Each schema finding of a call that the scan stores has its own new row, on that call's new connection, with its
  // fields; and no other schema or field is new.
  ghost predicate SchemasStand(db: Tables, after: Tables, s: Scan, at: map<nat, Place>) {
    && (forall q: nat :: q in at <==> q < |s.findings.schemas| && IsDeclared(db, s, q))
    && (forall q: nat :: q in at ==> Stands(db, after, s, q, at[q]))
    && (forall p: nat, q: nat :: p in at && q in at && p != q ==> at[p].schema != at[q].schema)
    && OnlyPlaces(db, after, at)
  }

  lemma SchemaStands(db: Tables, s: Scan, d1: Tables, d2: Tables, st: Stored, d4: Tables, q: nat, at: Place)
    requires Wrote(db, s, d1, d2, st, d4) && db.nextVersion in d4.versions && Unblocked(d4, s.repo, db.nextVersion)
    requires q < |s.findings.schemas| && NewSchema(st.db, d4, st.ids, s.findings.schemas[q], at)
    ensures Stands(db, EndScanResult(d4, s.repo, db.nextVersion, s.now), s, q, at)
  {
    hide Settled, WellFormed, Stages, AfterBegin, ServicesAre, PersistConnections, PersistSchemas, Declared, RowOf,
         EndScanResult, IsCallOf, HasFields;
    WritesIfDeclared(db, s, d1, d2, st, d4, q);
    var i: nat := s.findings.schemas[q].connectionIndex.value;
    DeclaredRow(db, s, d1, d2, st, d4, i, q, at.schema);
    SameServices(db, s, d1, d2, st, d4);
    NewSchemaOutlasts(db, s, d2, d4, i, at.schema);
    FieldsOutlast(d4, s.repo, db.nextVersion, s.now, s.findings.schemas[q], st.ids[i], at);
    SchemasBefore(db, s, d1, d2, st, d4);
    hide Wrote, IsSchema;
  }

  lemma OnlyPlacesAfter(db: Tables, d4: Tables, at: map<nat, Place>, repo: nat, n: nat, now: int)
    requires n in d4.versions && OnlyPlaces(db, d4, at)
    ensures OnlyPlaces(db, EndScanResult(d4, repo, n, now), at)
  {
    KeptSchemasSurvive(d4, repo, n);
    hide KeptSchemas, Among, Current, IsPlace;
  }

  lemma FieldsBefore(db: Tables, s: Scan, d1: Tables, d2: Tables, st: Stored, d4: Tables)
    requires Wrote(db, s, d1, d2, st, d4)
    ensures WellFormed(st.db) && st.db.schemas == db.schemas && st.db.fields == db.fields
  {
    hide Settled, AfterBegin, PersistSchemas, ServicesAre, Stages;
    AreWellFormed(db, s, d2);
    StoredWellFormed(d2, s.repo, s.findings, db.nextVersion);
    hide WellFormed, PersistConnections;
    SchemasBefore(db, s, d1, d2, st, d4);
    SameFieldsBefore(db, s, d1, d2, st, d4);
  }

  lemma SameFieldsBefore(db: Tables, s: Scan, d1: Tables, d2: Tables, st: Stored, d4: Tables)
    requires Stages(db, s, d1, d2, st, d4)
    ensures st.db.fields == db.fields
  {
    hide ServicesPersisted, ConnectionsPersisted, AllStored, OnlyAddsSchemas;
  }

  lemma SchemasAndFieldsAreStored(db: Tables, s: Scan) returns (at: map<nat, Place>)
    requires Settled(db) && NoPending(db) && WriteTx(db, s).Done?
    ensures SchemasStand(db, WriteTx(db, s).value, s, at)
  {
    hide Settled, WellFormed, NoPending, ApplyFirst, AfterFindings, Stages, ServicesAre, PersistConnections, AfterBegin,
         PersistSchemas, EndScan, OnlyPlaces, IsDeclared, Stands, NewSchema, Declared;
    var d1, d2, st, d4 := WhatWasWritten(db, s);
    FieldsBefore(db, s, d1, d2, st, d4);
    at := SchemasAreStored(st.db, st.ids, s.findings.schemas);
    WrittenIsWellFormed(db, s, d1, d2, st, d4);
    EndScanClosedForm(d4, s.repo, db.nextVersion, s.now);
    hide EndScanResult;
    forall q: nat | q < |s.findings.schemas|
      ensures q in at <==> IsDeclared(db, s, q)
      ensures q in at ==> Stands(db, WriteTx(db, s).value, s, q, at[q])
    {
      WritesIfDeclared(db, s, d1, d2, st, d4, q);
      if q in at { SchemaStands(db, s, d1, d2, st, d4, q, at[q]); }
    }
    SamePlaces(st.db, db, d4, at);
    OnlyPlacesAfter(db, d4, at, s.repo, db.nextVersion, s.now);
  }

  lemma SamePlaces(a: Tables, b: Tables, after: Tables, at: map<nat, Place>)
    requires a.schemas == b.schemas && a.fields == b.fields && OnlyPlaces(a, after, at)
    ensures OnlyPlaces(b, after, at)
  {
  }
}
