// When the deleted-file cleanup after COMMIT runs to its end.
module ScanCleanup {
  import opened Common
  import opened ScanTables
  import opened ScanPipeline
  import opened ScanIntegrity
  import opened ScanEffects

  // The services defined in the files.
  ghost function Doomed(services: map<nat, Service>, repo: nat, files: seq<string>): set<nat> {
    set x | x in services && DefinedIn(services[x], repo, files)
  }

  // A schema hangs on a connection of a service that is to go.
  ghost predicate SchemaOnDoomed(db: Tables, repo: nat, files: seq<string>) {
    HasSchema(db.schemas, Touching(db.connections, Doomed(db.services, repo, files)))
  }

  lemma {:induction false} DeadStaysDead(p: Progress, ids: seq<nat>)
    requires !p.ok
    ensures !DeleteConnectionsOf(p, ids).ok && DeleteConnectionsOf(p, ids).budget == p.budget
  {
    if ids != [] {
      DeadStaysDead(p, ids[..|ids| - 1]);
    }
  }

  lemma TouchingOneMore(db: Tables, ids: seq<nat>)
    requires ids != []
    ensures var front, last, conns := ids[..|ids| - 1], ids[|ids| - 1], db.connections;
            var earlier := Touching(conns, set id | id in front);
            var left := conns - earlier;
            var gone := Touching(conns, set id | id in ids);
            && earlier <= gone && Touching(left, {last}) <= gone && left - Touching(left, {last}) == conns - gone
  {
    var front, last := ids[..|ids| - 1], ids[|ids| - 1];
    assert (set id | id in ids) == (set id | id in front) + {last};
  }

  lemma {:induction false} ConnectionsNeed(db: Tables, ids: seq<nat>, b: nat)
    requires !HasSchema(db.schemas, Touching(db.connections, set id | id in ids))
    ensures var q := DeleteConnectionsOf(Progress(db, b, true), ids);
            if b >= |ids|
            then q == Progress(db.(connections := db.connections - Touching(db.connections, set id | id in ids)),
                               b - |ids|, true)
            else !q.ok && q.budget == 0
  {
    if ids == [] {
      assert Touching(db.connections, set id | id in ids) == {};
      assert db.connections - {} == db.connections;
    } else {
      TouchingOneMore(db, ids);
      hide Touching;
      ConnectionsNeed(db, ids[..|ids| - 1], b);
    }
  }

  lemma OneFileNeeds(db: Tables, repo: nat, file: string, b: nat) returns (need: nat, after: Tables)
    requires WellFormed(db) && !SchemaOnDoomed(db, repo, [file])
    ensures need == |ServicesIn(db.services, db.nextService, repo, file)| + 1
    ensures after == WithoutFile(db, repo, file)
    ensures var q := DeleteFile(Progress(db, b, true), repo, file);
            if b >= need then q == Progress(after, b - need, true) else !q.ok && q.budget == 0
  {
    var ids := ServicesIn(db.services, db.nextService, repo, file);
    need, after := |ids| + 1, WithoutFile(db, repo, file);
    var gone := set id | id in ids;
    assert gone == Doomed(db.services, repo, [file]) by {
      DoomedAreListed(db, repo, file);
    }
    ConnectionsNeed(db, ids, b);
    var mid := db.(connections := db.connections - Touching(db.connections, gone));
    assert DeleteServices(mid, gone) == Done(after);
    hide WellFormed, SchemaOnDoomed, DeleteServices, DeleteConnectionsOf, Touching, ServicesIn;
  }

  function WithoutFile(db: Tables, repo: nat, file: string): Tables {
    var gone := set id | id in ServicesIn(db.services, db.nextService, repo, file);
    db.(connections := db.connections - Touching(db.connections, gone), services := db.services - gone)
  }

  lemma DoomedAreListed(db: Tables, repo: nat, file: string)
    requires WellFormed(db)
    ensures (set id | id in ServicesIn(db.services, db.nextService, repo, file)) == Doomed(db.services, repo, [file])
  {
    forall x: nat ensures x in ServicesIn(db.services, db.nextService, repo, file)
        <==> x in Doomed(db.services, repo, [file]) {
      assert IdsBelow(db.services, db.nextService);
      assert x in ServicesIn(db.services, db.nextService, repo, file)
             <==> x < db.nextService && Defines(db.services, x, repo, file);
    }
  }

  function WithoutFiles(db: Tables, repo: nat, files: seq<string>): Tables {
    if files == [] then db else WithoutFile(WithoutFiles(db, repo, files[..|files| - 1]), repo, files[|files| - 1])
  }

  function Statements(db: Tables, repo: nat, files: seq<string>): nat {
    if files == [] then 0
    else
      var before := WithoutFiles(db, repo, files[..|files| - 1]);
      Statements(db, repo, files[..|files| - 1])
          + |ServicesIn(before.services, before.nextService, repo, files[|files| - 1])| + 1
  }

  // With no schema on a doomed connection nothing stops the cleanup but the engine: given enough statements it runs
  // to its end.
  lemma {:induction false} CleanupNeeds(db: Tables, repo: nat, files: seq<string>, b: nat)
    requires WellFormed(db) && !SchemaOnDoomed(db, repo, files)
    ensures var q := DeleteFiles(Progress(db, b, true), repo, files);
            if b >= Statements(db, repo, files)
            then q == Progress(WithoutFiles(db, repo, files), b - Statements(db, repo, files), true)
            else !q.ok && q.budget == 0
  {
    if files != [] {
      var front, file := files[..|files| - 1], files[|files| - 1];
      FewerAreDoomed(db, repo, files);
      CleanupNeeds(db, repo, front, b);
      var q := DeleteFiles(Progress(db, b, true), repo, front);
      if b >= Statements(db, repo, front) {
        DeleteFilesKeepsIntegrity(Progress(db, b, true), repo, front);
        DeleteFilesEffect(Progress(db, b, true), repo, front);
        hide DeleteFiles, WithoutFiles, Statements, WellFormed;
        LaterFileIsFree(db, q.db, repo, files);
        var need, after := OneFileNeeds(q.db, repo, file, q.budget);
      } else {
        DeadFile(q, repo, file);
      }
    }
  }

  lemma DeadFile(p: Progress, repo: nat, file: string)
    requires !p.ok
    ensures !DeleteFile(p, repo, file).ok && DeleteFile(p, repo, file).budget == p.budget
  {
    DeadStaysDead(p, ServicesIn(p.db.services, p.db.nextService, repo, file));
  }

  lemma FewerAreDoomed(db: Tables, repo: nat, files: seq<string>)
    requires files != [] && !SchemaOnDoomed(db, repo, files)
    ensures !SchemaOnDoomed(db, repo, files[..|files| - 1])
  {
    var front := files[..|files| - 1];
    assert Doomed(db.services, repo, front) <= Doomed(db.services, repo, files);
    assert Touching(db.connections, Doomed(db.services, repo, front))
           <= Touching(db.connections, Doomed(db.services, repo, files));
  }

  lemma LaterFileIsFree(db: Tables, after: Tables, repo: nat, files: seq<string>)
    requires files != [] && !SchemaOnDoomed(db, repo, files) && after.schemas == db.schemas
    requires FilesDeleted(db, after, repo, files[..|files| - 1])
    ensures !SchemaOnDoomed(after, repo, [files[|files| - 1]])
  {
    var doomed, later := Doomed(db.services, repo, files), Doomed(after.services, repo, [files[|files| - 1]]);
    assert later <= doomed;
    assert Touching(after.connections, later) <= Touching(db.connections, doomed);
  }

  // The cleanup of some files can run to its end exactly when no schema hangs on a connection that must go.
  lemma CleanupEndsIff(db: Tables, repo: nat, files: seq<string>)
    requires WellFormed(db)
    ensures (exists b: nat :: DeleteFiles(Progress(db, b, true), repo, files).ok) <==> !SchemaOnDoomed(db, repo, files)
  {
    if !SchemaOnDoomed(db, repo, files) {
      CleanupNeeds(db, repo, files, Statements(db, repo, files));
      hide DeleteFiles;
    } else if b: nat :| DeleteFiles(Progress(db, b, true), repo, files).ok {
      DeleteFilesKeepsIntegrity(Progress(db, b, true), repo, files);
      DeleteFilesEffect(Progress(db, b, true), repo, files);
      hide DeleteFiles;
      DoomedSchemaWouldDangle(db, DeleteFiles(Progress(db, b, true), repo, files).db, repo, files);
    }
  }

  lemma DoomedSchemaWouldDangle(db: Tables, after: Tables, repo: nat, files: seq<string>)
    requires SchemaOnDoomed(db, repo, files) && FilesDeleted(db, after, repo, files) && after.schemas == db.schemas
    ensures !WellFormed(after)
  {
    var x :| x in db.schemas && db.schemas[x].connection in Touching(db.connections, Doomed(db.services, repo, files));
    assert db.schemas[x].connection !in after.connections;
    assert !SchemasOwned(after.schemas, after.connections);
  }
}
