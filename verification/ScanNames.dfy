// How the names of a scan's findings resolve, and when writing the findings throws, for any findings: in the tables
// before the scan.
module ScanNames {
  import opened Common
  import Paths
  import opened ScanTables
  import opened ScanPipeline
  import opened ScanIntegrity
  import opened ScanRuns
  import opened ScanEffects
  import opened ScanTheorems
  import opened ScanIsolation
  import opened ScanRescan
  import opened ScanFindings
  import opened ScanCommits

  // ---------------------------------------------------------------- names

  // Does the name resolve when the connections are written?
  ghost predicate Known(db: Tables, s: Scan, name: string) {
    Named(s.findings.services, name) || exists x :: IsNamed(db.services, x, name)
  }

  // The service of db it resolves to then; None if it resolves to a service the scan adds, or not at all.
  ghost function OldService(db: Tables, s: Scan, name: string): Option<nat> {
    var own := FindService(db.services, db.nextService, s.repo, name);
    if own.Some? then own
    else if Named(s.findings.services, name) then None
    else FindByName(db.services, db.nextService, name)
  }

  // The services when the connections are written.
  ghost predicate ServicesAre(db: Tables, s: Scan, d2: Tables) {
    && WellFormed(db) && WellFormed(d2) && Written(db.services, d2.services, s, db.nextVersion)
    && (forall x :: x in d2.services && x !in db.services ==>
          x >= db.nextService && IsNamedHere(d2.services[x], s.repo, s.findings.services))
  }

  lemma AreWritten(db: Tables, s: Scan, d1: Tables, d2: Tables)
    requires WellFormed(db) && WellFormed(d2) && Carried(db, d1, s)
    requires ServicesPersisted(d1.services, d2.services, db.nextService, s.repo, s.findings.services, db.nextVersion)
    ensures ServicesAre(db, s, d2)
  {
    hide WellFormed;
    WrittenAtServices(db, s, d1, d2);
    hide Written;
  }

  lemma UnnamedIsOld(db: Tables, s: Scan, d2: Tables, x: nat, name: string)
    requires ServicesAre(db, s, d2) && !Named(s.findings.services, name)
    ensures IsNamed(d2.services, x, name) <==> IsNamed(db.services, x, name)
    ensures IsService(d2.services, x, s.repo, name) <==> IsService(db.services, x, s.repo, name)
  {
    hide WellFormed;
  }

  lemma NamedAmongNew(db: Tables, s: Scan, d2: Tables, name: string)
    requires ServicesAre(db, s, d2) && Named(s.findings.services, name)
    ensures var r, own := Resolve(d2, s.repo, name), FindService(db.services, db.nextService, s.repo, name);
            && r.Some? && IsService(d2.services, r.value, s.repo, name)
            && (if own.Some? then r == own else r.value !in db.services)
  {
    assert HasService(d2.services, s.repo, name);
    NamedResolvesHere(d2, s.repo, name);
    var own := FindService(db.services, db.nextService, s.repo, name);
    var x := Resolve(d2, s.repo, name).value;
    assert UniqueNames(d2.services) && IdsBelow(db.services, db.nextService);
    hide WellFormed, Resolve, FindService;
    if own.Some? {
      assert IsService(d2.services, own.value, s.repo, name);
    } else {
      assert x in db.services ==> IsService(db.services, x, s.repo, name);
    }
  }

  lemma UnnamedAmongOld(db: Tables, s: Scan, d2: Tables, name: string)
    requires ServicesAre(db, s, d2) && !Named(s.findings.services, name)
    ensures FindService(d2.services, d2.nextService, s.repo, name)
            == FindService(db.services, db.nextService, s.repo, name)
    ensures FindByName(d2.services, d2.nextService, name) == FindByName(db.services, db.nextService, name)
  {
    forall x: nat
      ensures IsNamed(d2.services, x, name) <==> IsNamed(db.services, x, name)
      ensures IsService(d2.services, x, s.repo, name) <==> IsService(db.services, x, s.repo, name)
    {
      UnnamedIsOld(db, s, d2, x, name);
    }
    assert IdsBelow(db.services, db.nextService) && IdsBelow(d2.services, d2.nextService);
    hide WellFormed, FindService, FindByName, Written;
  }

  lemma ResolvesTo(db: Tables, s: Scan, d2: Tables, name: string)
    requires ServicesAre(db, s, d2)
    ensures var r, old' := Resolve(d2, s.repo, name), OldService(db, s, name);
            && (r.Some? <==> Known(db, s, name))
            && (r.Some? ==> IsNamed(d2.services, r.value, name))
            && (if old'.Some? then r == old' else r.Some? ==> r.value !in db.services)
  {
    hide Written;
    if Named(s.findings.services, name) {
      NamedAmongNew(db, s, d2, name);
      hide WellFormed, FindService, FindByName;
    } else {
      UnnamedAmongOld(db, s, d2, name);
      assert IdsBelow(db.services, db.nextService);
      if x :| IsNamed(db.services, x, name) {
        assert FindByName(db.services, db.nextService, name).Some?;
      }
      hide WellFormed, FindService, FindByName;
      var r := Resolve(d2, s.repo, name);
      if r.Some? {
        UnnamedIsOld(db, s, d2, r.value, name);
        assert IsNamed(db.services, r.value, name);
      }
    }
  }

  // ---------------------------------------------------------------- when the findings throw

  // An evidenced finding resolves to the two ends of a connection with a schema, and has its concrete key.
  ghost predicate MeetsSchema(db: Tables, s: Scan, j: nat, c: nat) {
    && j < |s.findings.connections| && j !in s.findings.rejected
    && c in db.connections && HasSchema(db.schemas, {c})
    && var row, f := db.connections[c], s.findings.connections[j];
       && OldService(db, s, f.source) == Some(row.source) && OldService(db, s, f.target) == Some(row.target)
       && Concrete(KeyOf(row)) && FindingKey(row.source, row.target, f) == KeyOf(row)
  }

  // Two evidenced findings have the same names, which resolve, and one canonical protocol, method and path.
  ghost predicate SameCallAs(db: Tables, s: Scan, i: nat, j: nat) {
    && i < j < |s.findings.connections| && i !in s.findings.rejected && j !in s.findings.rejected
    && var a, b := s.findings.connections[i], s.findings.connections[j];
       && a.source == b.source && a.target == b.target && Known(db, s, a.source) && Known(db, s, a.target)
       && Paths.CanonicalProtocol(a.protocol) == Paths.CanonicalProtocol(b.protocol)
       && a.verb == b.verb != "" && a.path != "" && b.path != ""
       && Paths.Canonicalize(a.path) == Paths.Canonicalize(b.path)
  }

  ghost predicate SchemaOnSameCall(db: Tables, s: Scan, i: nat, j: nat, q: nat) {
    SameCallAs(db, s, i, j) && q < |s.findings.schemas| && s.findings.schemas[q].connectionIndex == Some(i)
  }

  function KeyIn(d2: Tables, s: Scan, j: nat): Option<Key>
    requires j < |s.findings.connections|
  {
    StoredKey(d2, s.repo, s.findings.connections, s.findings.rejected, j)
  }

  // The key of a finding, through the names.
  lemma KeyByName(db: Tables, s: Scan, d2: Tables, j: nat)
    requires ServicesAre(db, s, d2) && j < |s.findings.connections|
    ensures var f := s.findings.connections[j];
            && (KeyIn(d2, s, j).Some?
                <==> j !in s.findings.rejected && Known(db, s, f.source) && Known(db, s, f.target))
            && (KeyIn(d2, s, j).Some? ==>
                  var k := KeyIn(d2, s, j).value;
                  && k == FindingKey(k.source, k.target, f)
                  && Resolve(d2, s.repo, f.source) == Some(k.source) && Resolve(d2, s.repo, f.target) == Some(k.target)
                  && IsNamed(d2.services, k.source, f.source) && IsNamed(d2.services, k.target, f.target))
  {
    ResolvesTo(db, s, d2, s.findings.connections[j].source);
    ResolvesTo(db, s, d2, s.findings.connections[j].target);
    hide ServicesAre, Resolve, Known, OldService, Paths.CanonicalProtocol, Paths.CanonicalizePath;
  }

  lemma HitsByName(db: Tables, s: Scan, d2: Tables, j: nat, c: nat)
    requires ServicesAre(db, s, d2) && d2.schemas == db.schemas && NoDangling(db.connections, db.services)
    requires c in db.connections <==> c in d2.connections
    requires c in db.connections ==> KeyOf(d2.connections[c]) == KeyOf(db.connections[c])
    ensures HitsSchema(d2, s.repo, s.findings.connections, s.findings.rejected, j, c) <==> MeetsSchema(db, s, j, c)
  {
    hide ServicesAre, Resolve, Known, OldService, FindingKey, HasSchema, StoredKey, Concrete;
    if j < |s.findings.connections| && c in db.connections {
      var row, f := db.connections[c], s.findings.connections[j];
      KeyByName(db, s, d2, j);
      ResolvesTo(db, s, d2, f.source);
      ResolvesTo(db, s, d2, f.target);
      assert KeyOf(row).source in db.services && KeyOf(row).target in db.services;
    }
  }

  lemma SameKeysByName(db: Tables, s: Scan, d2: Tables, i: nat, j: nat)
    requires ServicesAre(db, s, d2) && i < j < |s.findings.connections|
    ensures KeyIn(d2, s, i).Some? && Concrete(KeyIn(d2, s, i).value) && KeyIn(d2, s, j) == KeyIn(d2, s, i)
            <==> SameCallAs(db, s, i, j)
  {
    hide ServicesAre, Resolve, Known, StoredKey, Paths.CanonicalProtocol, Paths.Canonicalize;
    KeyByName(db, s, d2, i);
    KeyByName(db, s, d2, j);
  }

  lemma ReplacedByName(db: Tables, s: Scan, d2: Tables)
    requires ServicesAre(db, s, d2)
    ensures (exists q: nat :: SchemaOnReplaced(d2, s.repo, s.findings, q))
            <==> (exists i: nat, j: nat, q: nat :: SchemaOnSameCall(db, s, i, j, q))
  {
    hide ServicesAre, StoredKey, SameCallAs, Concrete, KeysOf, KeyIn;
    var f := s.findings;
    var keys := KeysOf(d2, s.repo, f.connections, f.rejected);
    KeysInOrder(d2, s);
    if q: nat :| SchemaOnReplaced(d2, s.repo, f, q) {
      var i: nat := f.schemas[q].connectionIndex.value;
      var j: nat :| i < j < |keys| && keys[j] == keys[i];
      SameKeysByName(db, s, d2, i, j);
      assert SchemaOnSameCall(db, s, i, j, q);
    }
    if i: nat, j: nat, q: nat :| SchemaOnSameCall(db, s, i, j, q) {
      SameCallInRange(db, s, i, j);
      SameKeysByName(db, s, d2, i, j);
      assert SchemaOnReplaced(d2, s.repo, f, q);
    }
  }

  lemma KeysInOrder(d2: Tables, s: Scan)
    ensures var keys := KeysOf(d2, s.repo, s.findings.connections, s.findings.rejected);
            |keys| == |s.findings.connections| && forall i: nat :: i < |keys| ==> keys[i] == KeyIn(d2, s, i)
  {
    hide StoredKey;
  }

  lemma SameCallInRange(db: Tables, s: Scan, i: nat, j: nat)
    requires SameCallAs(db, s, i, j)
    ensures i < j < |s.findings.connections|
  {
  }

  // Whatever the findings name, and whatever overrides are pending: writing them throws exactly when an evidenced one
  // meets a connection with a schema, or two are the same call and a schema belongs to the earlier one.
  lemma AnyFindingsThrowIff(db: Tables, s: Scan)
    requires Settled(db) && s.repo in db.repos
    ensures AfterFindings(db, s).Thrown?
            <==> (exists j: nat, c: nat :: MeetsSchema(db, s, j, c))
                 || (exists i: nat, j: nat, q: nat :: SchemaOnSameCall(db, s, i, j, q))
  {
    hide PersistServices, PersistConnections, PersistSchemas, AfterBegin, WellFormed, Settled, Carried, NoDangling,
         ServicesPersisted, HitsSchema, SchemaOnReplaced, MeetsSchema, SchemaOnSameCall, ServicesAre;
    var f, n := s.findings, db.nextVersion;
    BeginningAScan(db, s);
    SettledIsWellFormed(db);
    DeclaredConstraints(db);
    var d1, d2 := ServicesStage(db, s);
    CarriedRows(db, d1, s);
    AreWritten(db, s, d1, d2);
    ConnectionsThrowIff(d2, s.repo, f.connections, f.rejected, n);
    forall j: nat, c: nat
      ensures HitsSchema(d2, s.repo, f.connections, f.rejected, j, c) <==> MeetsSchema(db, s, j, c)
    {
      if c in db.connections { CarriedRow(db, d1, s, c); }
      HitsByName(db, s, d2, j, c);
    }
    ReplacedByName(db, s, d2);
    if PersistConnections(d2, s.repo, f.connections, f.rejected, n).Done? {
      SchemasThrowIffReplaced(d2, s.repo, f, n);
    }
  }
}
