// What an override does to its row, column by column, and what a pass of overrides does in order.
module ScanActions {
  import opened Common
  import opened Text
  import opened ScanTables
  import opened ScanPipeline
  import opened ScanIntegrity
  import opened ScanRuns
  import opened ScanOverrides

  // ---------------------------------------------------------------- one override

  // Only services and connections change, and of the services only row t, which stays the same repo's.
  ghost predicate OnlyService(db: Tables, after: Tables, t: nat) {
    && after == db.(services := after.services)
    && after.services.Keys == db.services.Keys
    && (forall x :: x in db.services && x != t ==> after.services[x] == db.services[x])
  }

  ghost predicate OnlyConnection(db: Tables, after: Tables, t: nat) {
    && after == db.(connections := after.connections)
    && after.connections.Keys == db.connections.Keys
    && (forall c :: c in db.connections && c != t ==> after.connections[c] == db.connections[c])
  }

  ghost predicate ConnectionGone(db: Tables, after: Tables, t: nat) {
    && after == db.(connections := after.connections)
    && (forall c :: c in after.connections <==> c in db.connections && c != t)
    && (forall c :: c in after.connections ==> after.connections[c] == db.connections[c])
  }

  // Every connection of service t goes, and no other.
  ghost predicate Unconnected(before: map<nat, Connection>, after: map<nat, Connection>, t: nat) {
    && (forall c :: c in after <==> c in before && before[c].source != t && before[c].target != t)
    && (forall c :: c in after ==> after[c] == before[c])
  }

  ghost predicate TouchingGone(db: Tables, after: Tables, t: nat) {
    after == db.(connections := after.connections) && Unconnected(db.connections, after.connections, t)
  }

  ghost predicate ServiceGone(db: Tables, after: Tables, t: nat) {
    && after == db.(services := after.services, connections := after.connections)
    && Unconnected(db.connections, after.connections, t)
    && (forall x :: x in after.services <==> x in db.services && x != t)
    && (forall x :: x in after.services ==> after.services[x] == db.services[x])
  }

  // The row of a service with another name, or another base path.
  ghost predicate Renamed(before: Service, after: Service, name: string) {
    && after.name == name
    && after.repo == before.repo && after.rootPath == before.rootPath && after.language == before.language
    && after.kind == before.kind && after.boundaryEntry == before.boundaryEntry && after.basePath == before.basePath
    && after.sourceFile == before.sourceFile && after.version == before.version
  }

  ghost predicate Rebased(before: Service, after: Service, basePath: Option<string>) {
    && after.basePath == basePath
    && after.repo == before.repo && after.name == before.name && after.rootPath == before.rootPath
    && after.language == before.language && after.kind == before.kind && after.boundaryEntry == before.boundaryEntry
    && after.sourceFile == before.sourceFile && after.version == before.version
  }

  // The row of a connection with the ends and the evidence that the payload gives, and every other column as before.
  ghost predicate Repointed(before: Connection, after: Connection, source: Option<nat>, target: Option<nat>,
                            evidence: Option<string>)
  {
    && (if source.Some? then after.source == source.value else after.source == before.source)
    && (if target.Some? then after.target == target.value else after.target == before.target)
    && (if evidence.Some? then after.details.evidence == evidence
        else after.details.evidence == before.details.evidence)
    && after.protocol == before.protocol && after.protocolRaw == before.protocolRaw && after.verb == before.verb
    && after.path == before.path && after.pathTemplate == before.pathTemplate && after.version == before.version
    && after.details.sourceFile == before.details.sourceFile && after.details.targetFile == before.details.targetFile
    && after.details.sourceSymbol == before.details.sourceSymbol
    && after.details.targetSymbol == before.details.targetSymbol
    && after.details.crossing == before.details.crossing && after.details.confidence == before.details.confidence
  }

  // All of what the override says is done to its row, if the row is there, and nothing else.
  ghost predicate Does(db: Tables, o: Override, after: Tables) {
    match o.action
    case Delete =>
      if o.kind.OnConnection? then ConnectionGone(db, after, o.target) else ServiceGone(db, after, o.target)
    case Update =>
      && o.payload.Json? && OnlyConnection(db, after, o.target)
      && (o.target in db.connections ==>
            Repointed(db.connections[o.target], after.connections[o.target], o.payload.source, o.payload.target,
                      o.payload.evidence))
    case Rename =>
      && o.payload.Json? && OnlyService(db, after, o.target)
      && (if o.payload.newName.None? || IsTrimmed(o.payload.newName.value, "") then after == db
          else o.target in db.services ==>
                 IsTrimmed(o.payload.newName.value, after.services[o.target].name)
                 && Renamed(db.services[o.target], after.services[o.target], after.services[o.target].name))
    case SetBasePath =>
      && o.payload.Json? && OnlyService(db, after, o.target)
      && (o.target in db.services ==>
            Rebased(db.services[o.target], after.services[o.target],
                    if o.payload.basePath == Some("") then None else o.payload.basePath))
  }

  lemma RenameDoes(db: Tables, t: nat, newName: Option<string>)
    requires RenameService(db, t, newName).Done?
    ensures var after := RenameService(db, t, newName).value;
            && OnlyService(db, after, t)
            && (if newName.None? || IsTrimmed(newName.value, "") then after == db
                else t in db.services ==>
                       IsTrimmed(newName.value, after.services[t].name)
                       && Renamed(db.services[t], after.services[t], after.services[t].name))
  {
    if newName.Some? {
      TrimIs(newName.value);
      if IsTrimmed(newName.value, "") {
        TrimmedIsOne(newName.value, "", Trim(newName.value));
      }
      hide IsTrimmed, Trim;
    }
  }

  lemma RepointDoes(db: Tables, t: nat, p: Payload)
    requires p.Json? && UpdateConnection(db, t, p).Done?
    ensures var after := UpdateConnection(db, t, p).value;
            && OnlyConnection(db, after, t)
            && (t in db.connections ==>
                  Repointed(db.connections[t], after.connections[t], p.source, p.target, p.evidence))
  {
    hide Replaced;
  }

  lemma EvictDoes(db: Tables, t: nat, fault: Option<nat>, o: Override)
    requires o.kind.OnService? && o.action.Delete? && o.target == t && Mutate(db, o, fault).completed
    ensures ServiceGone(db, Mutate(db, o, fault).db, t)
  {
    hide HasSchema;
  }

  lemma RemoveDoes(db: Tables, t: nat)
    requires DeleteConnections(db, {t}).Done?
    ensures ConnectionGone(db, DeleteConnections(db, {t}).value, t)
  {
    hide HasSchema;
  }

  // An override whose statements all run does what it says to its row, and nothing else.
  lemma MutateDoes(db: Tables, o: Override, fault: Option<nat>)
    requires Allowed(o) && !o.payload.NotJson? && Mutate(db, o, fault).completed
    ensures Does(db, o, Mutate(db, o, fault).db)
  {
    if o.kind.OnService? && o.action.Delete? {
      EvictDoes(db, o.target, fault, o);
      hide ServiceGone;
    } else {
      hide DeleteConnections, RenameService, UpdateConnection, MutationSize, IsTrimmed, OnlyConnection, Repointed,
           Renamed;
      match o.action {
        case Delete => RemoveDoes(db, o.target);
        case Rename => if o.payload.Json? { RenameDoes(db, o.target, o.payload.newName); }
        case Update => if o.payload.Json? { RepointDoes(db, o.target, o.payload); }
        case SetBasePath =>
      }
    }
  }

  // ---------------------------------------------------------------- when an override is rejected

  ghost predicate SchemaTouches(db: Tables, t: nat) {
    exists x :: x in db.schemas && db.schemas[x].connection in db.connections
                && (db.connections[db.schemas[x].connection].source == t
                    || db.connections[db.schemas[x].connection].target == t)
  }

  // Another service of the repo has the new name.
  ghost predicate NameTaken(db: Tables, t: nat, newName: Option<string>) {
    && newName.Some? && !IsTrimmed(newName.value, "") && t in db.services
    && exists x :: x in db.services && x != t && db.services[x].repo == db.services[t].repo
                   && IsTrimmed(newName.value, db.services[x].name)
  }

  // An end is no service, or another connection has the method, the path and the ends that the row would have.
  ghost predicate EndsTaken(db: Tables, t: nat, source: nat, target: nat)
    requires t in db.connections
  {
    var row := db.connections[t];
    || source !in db.services || target !in db.services
    || (row.verb.Some? && row.path.Some?
        && exists c :: c in db.connections && c != t && db.connections[c].source == source
                       && db.connections[c].target == target && db.connections[c].protocol == row.protocol
                       && db.connections[c].verb == row.verb && db.connections[c].path == row.path)
  }

  // What the tables, or a null payload, do not let an override do.
  ghost predicate Rejects(db: Tables, o: Override) {
    if o.action.Delete? then
      if o.kind.OnConnection? then exists x :: x in db.schemas && db.schemas[x].connection == o.target
      else SchemaTouches(db, o.target)
    else
      || !o.payload.Json?
      || (o.action.Rename? && NameTaken(db, o.target, o.payload.newName))
      || (o.action.Update? && o.target in db.connections
          && (o.payload.source.Some? || o.payload.target.Some? || o.payload.evidence.Some?)
          && EndsTaken(db, o.target, o.payload.source.GetOr(db.connections[o.target].source),
                       o.payload.target.GetOr(db.connections[o.target].target)))
  }

  lemma RenameThrowsIff(db: Tables, t: nat, newName: Option<string>)
    ensures RenameService(db, t, newName).Thrown? <==> NameTaken(db, t, newName)
  {
    if newName.Some? {
      var name := Trim(newName.value);
      TrimIs(newName.value);
      forall core | IsTrimmed(newName.value, core) ensures core == name {
        TrimmedIsOne(newName.value, core, name);
      }
      hide IsTrimmed, Trim;
    }
  }

  lemma UpdateThrowsIff(db: Tables, t: nat, p: Payload)
    requires p.Json?
    ensures UpdateConnection(db, t, p).Thrown?
            <==> t in db.connections && (p.source.Some? || p.target.Some? || p.evidence.Some?)
                 && EndsTaken(db, t, p.source.GetOr(db.connections[t].source), p.target.GetOr(db.connections[t].target))
  {
    if t in db.connections {
      var row := Updated(db.connections[t], p);
      var others := Replaced(db.connections, KeyOf(row)) - {t};
      forall c ensures c in others <==> c in db.connections && c != t && Concrete(KeyOf(row))
                                        && KeyOf(db.connections[c]) == KeyOf(row) {
      }
      if others != {} {
        var c :| c in others;
        assert c in db.connections;
      }
      if c :| c in db.connections && c != t && Concrete(KeyOf(row)) && KeyOf(db.connections[c]) == KeyOf(row) {
        assert c in others;
      }
      hide Replaced;
    }
  }

  lemma EvictCompletesIff(db: Tables, o: Override, fault: Option<nat>)
    requires o.kind.OnService? && o.action.Delete?
    ensures Mutate(db, o, fault).completed
            <==> !SchemaTouches(db, o.target) && (fault.None? || fault.value >= 2)
  {
    var touching := Touching(db.connections, {o.target});
    var left := db.connections - touching;
    assert forall c :: c in left ==> !Touches(left[c], {o.target});
    assert HasSchema(db.schemas, touching) <==> SchemaTouches(db, o.target);
    hide SchemaTouches, HasSchema, Touching;
  }

  lemma RemoveThrowsIff(db: Tables, t: nat)
    ensures DeleteConnections(db, {t}).Thrown? <==> exists x :: x in db.schemas && db.schemas[x].connection == t
  {
  }

  // An override completes exactly when nothing rejects it and no statement before its stamp fails.
  lemma CompletesIff(db: Tables, o: Override, fault: Option<nat>)
    requires Allowed(o) && !o.payload.NotJson?
    ensures Mutate(db, o, fault).completed
            <==> !Rejects(db, o) && (fault.None? || fault.value >= MutationSize(o))
  {
    if o.kind.OnService? && o.action.Delete? {
      EvictCompletesIff(db, o, fault);
    } else {
      hide DeleteConnections, RenameService, UpdateConnection, NameTaken, EndsTaken;
      match o.action {
        case Delete => RemoveThrowsIff(db, o.target);
        case Rename => if o.payload.Json? { RenameThrowsIff(db, o.target, o.payload.newName); }
        case Update => if o.payload.Json? { UpdateThrowsIff(db, o.target, o.payload); }
        case SetBasePath =>
      }
      RunsOrNot(db, o, fault);
    }
  }

  // An override without a statement to run cannot throw.
  lemma RunsOrNot(db: Tables, o: Override, fault: Option<nat>)
    requires !(o.kind.OnService? && o.action.Delete?)
    ensures MutationSize(o) <= 1
    ensures Mutate(db, o, fault).completed
            <==> ApplyOne(db, o).Done? && (fault.None? || fault.value >= MutationSize(o))
  {
    hide ApplyOne, Trim;
  }

  // ---------------------------------------------------------------- a pass, override by override

  // Does the pass run all of override i's statements, meeting it with these tables?
  ghost predicate Runs(db: Tables, o: Override, fault: Option<nat>) {
    o.stamp.None? && Allowed(o) && !o.payload.NotJson? && !Rejects(db, o)
    && (fault.None? || fault.value >= MutationSize(o))
  }

  // What the pass does to the tables at one override; the stamps aside.
  ghost predicate StepDoes(db: Tables, o: Override, fault: Option<nat>, after: Tables) {
    if Runs(db, o, fault) then Does(db, o, after)
    else
      || after == db
      || (o.stamp.None? && o.kind.OnService? && o.action.Delete? && fault == Some(1)
          && TouchingGone(db, after, o.target))
  }

  lemma CutShort(db: Tables, o: Override, fault: Option<nat>)
    requires !Mutate(db, o, fault).completed
    ensures var after := Mutate(db, o, fault).db;
            || after == db
            || (o.kind.OnService? && o.action.Delete? && fault == Some(1) && TouchingGone(db, after, o.target))
  {
    var left := db.connections - Touching(db.connections, {o.target});
    assert forall c :: c in left ==> !Touches(left[c], {o.target});
    hide HasSchema, ApplyOne, MutationSize;
  }

  lemma OneStep(p: Pass, i: nat, version: nat, fault: Option<nat>)
    requires i < |p.db.overrides| && p.db.overrides[i].stamp.None?
    ensures var o, r := p.db.overrides[i], ApplyOverride(p, i, version, fault);
            && StepDoes(p.db, o, fault, r.db.(overrides := p.db.overrides))
            && r.applied == (if Runs(p.db, o, fault)
                             && fault != Some(MutationSize(o)) then p.applied + [i] else p.applied)
            && r.unstamped == (if Runs(p.db, o, fault) && fault == Some(MutationSize(o)) then p.unstamped + [i]
                               else p.unstamped)
  {
    var o := p.db.overrides[i];
    MutateKeepsOverrides(p.db, o, fault);
    var after := Mutate(p.db, o, fault).db;
    assert after.(overrides := p.db.overrides) == after;
    if Allowed(o) && !o.payload.NotJson? {
      CompletesIff(p.db, o, fault);
      if Mutate(p.db, o, fault).completed {
        MutateDoes(p.db, o, fault);
      } else {
        CutShort(p.db, o, fault);
      }
    }
    hide Mutate, Does, Rejects, MutationSize, TouchingGone, Allowed;
  }

  // The tables when the pass comes to override i, and the pass when it has been there.
  function Before(db: Tables, i: nat, version: nat, faults: map<nat, nat>): Tables
    requires i <= |db.overrides|
  {
    ApplyFirst(db, i, version, faults).db
  }

  // Every override of a pass, in order: what its turn does to the tables, and that it is applied exactly when all of
  // its statements and its stamp run.
  lemma PassDoes(db: Tables, version: nat, faults: map<nat, nat>, i: nat)
    requires i < |db.overrides|
    ensures var before, after := Before(db, i, version, faults), Before(db, i + 1, version, faults);
            var o, fault := db.overrides[i], FaultOf(faults, i);
            && StepDoes(before, o, fault, after.(overrides := before.overrides))
            && (i in ApplyPendingOverrides(db, version, faults).applied
                <==> Runs(before, o, fault) && fault != Some(MutationSize(o)))
            && (i in ApplyPendingOverrides(db, version, faults).unstamped
                <==> Runs(before, o, fault) && fault == Some(MutationSize(o)))
  {
    hide StepDoes, ApplyOverride, Runs, ApplyFirst, MutationSize, Completes;
    var p, o, fault := ApplyFirst(db, i, version, faults), db.overrides[i], FaultOf(faults, i);
    MetAsStaged(db, i, version, faults);
    ApplyNext(db, i + 1, version, faults);
    StampedUnlessTheStampFails(db, |db.overrides|, version, faults, i);
    RunsIfCompletes(db, i, version, faults);
    if o.stamp.None? {
      OneStep(p, i, version, fault);
    } else {
      StampedStepDoesNothing(p.db, o, fault);
      assert p.db.(overrides := p.db.overrides) == p.db;
    }
  }

  lemma StampedStepDoesNothing(db: Tables, o: Override, fault: Option<nat>)
    requires o.stamp.Some?
    ensures StepDoes(db, o, fault, db)
  {
  }

  lemma RunsIfCompletes(db: Tables, i: nat, version: nat, faults: map<nat, nat>)
    requires i < |db.overrides|
    ensures Completes(db, i, version, faults)
            <==> Runs(Before(db, i, version, faults), db.overrides[i], FaultOf(faults, i))
  {
    hide ApplyFirst, Mutate, Rejects, MutationSize, Allowed;
    MetAsStaged(db, i, version, faults);
    var o := db.overrides[i];
    if Allowed(o) && !o.payload.NotJson? {
      CompletesIff(Before(db, i, version, faults), o, FaultOf(faults, i));
    }
  }

  // ---------------------------------------------------------------- the counters of a pass

  // Which actions each kind has.
  lemma AllowedIff(o: Override)
    ensures Allowed(o) <==> if o.kind.OnConnection? then o.action in {OverrideAction.Delete, Update}
                            else o.action in {OverrideAction.Delete, Rename, SetBasePath}
  {
  }

  // A pending override that the pass logs and passes by: an action its kind does not have, or a payload that is no
  // JSON.
  ghost predicate IsSkipped(o: Override) {
    o.stamp.None?
    && (o.payload.NotJson?
        || !(if o.kind.OnConnection? then o.action.Delete? || o.action.Update?
             else o.action.Delete? || o.action.Rename? || o.action.SetBasePath?))
  }

  // One that the tables reject, or of which a statement or the stamp fails.
  ghost predicate IsError(db: Tables, o: Override, fault: Option<nat>) {
    o.stamp.None? && !IsSkipped(o) && (Rejects(db, o) || (fault.Some? && fault.value <= MutationSize(o)))
  }

  ghost function SkippedBelow(db: Tables, k: nat): set<nat>
    requires k <= |db.overrides|
  {
    set i: nat | i < k && IsSkipped(db.overrides[i])
  }

  ghost function ErrorsBelow(db: Tables, k: nat, version: nat, faults: map<nat, nat>): set<nat>
    requires k <= |db.overrides|
  {
    set i: nat | i < k && IsError(Before(db, i, version, faults), db.overrides[i], FaultOf(faults, i))
  }

  lemma CountsOfOne(p: Pass, i: nat, version: nat, fault: Option<nat>)
    requires i < |p.db.overrides| && p.db.overrides[i].stamp.None?
    ensures var o, r := p.db.overrides[i], ApplyOverride(p, i, version, fault);
            && r.skipped == p.skipped + (if IsSkipped(o) then 1 else 0)
            && r.errors == p.errors + (if IsError(p.db, o, fault) then 1 else 0)
  {
    var o := p.db.overrides[i];
    hide Mutate, Rejects, MutationSize;
    if Allowed(o) && !o.payload.NotJson? {
      CompletesIff(p.db, o, fault);
    }
  }

  lemma OneMoreSkipped(db: Tables, k: nat)
    requires k < |db.overrides|
    ensures |SkippedBelow(db, k + 1)| == |SkippedBelow(db, k)| + (if IsSkipped(db.overrides[k]) then 1 else 0)
  {
    hide IsSkipped;
    assert SkippedBelow(db, k + 1) == SkippedBelow(db, k) + if IsSkipped(db.overrides[k]) then {k} else {};
  }

  lemma OneMoreError(db: Tables, k: nat, version: nat, faults: map<nat, nat>)
    requires k < |db.overrides|
    ensures |ErrorsBelow(db, k + 1, version, faults)|
            == |ErrorsBelow(db, k, version, faults)|
               + (if IsError(Before(db, k, version, faults), db.overrides[k], FaultOf(faults, k)) then 1 else 0)
  {
    hide IsError, Before, FaultOf;
    assert ErrorsBelow(db, k + 1, version, faults)
           == ErrorsBelow(db, k, version, faults)
              + if IsError(Before(db, k, version, faults), db.overrides[k], FaultOf(faults, k)) then {k} else {};
  }

  lemma NothingCountedYet(db: Tables, version: nat, faults: map<nat, nat>)
    ensures |SkippedBelow(db, 0)| == 0 == |ErrorsBelow(db, 0, version, faults)|
  {
    assert SkippedBelow(db, 0) == {} && ErrorsBelow(db, 0, version, faults) == {};
  }

  lemma StampedIsNotCounted(db: Tables, o: Override, fault: Option<nat>)
    requires o.stamp.Some?
    ensures !IsSkipped(o) && !IsError(db, o, fault)
  {
  }

  // The pass counts exactly these: together with the applied ones every pending override, once.
  lemma {:induction false} PassCounts(db: Tables, k: nat, version: nat, faults: map<nat, nat>)
    requires k <= |db.overrides|
    ensures var p := ApplyFirst(db, k, version, faults);
            p.skipped == |SkippedBelow(db, k)| && p.errors == |ErrorsBelow(db, k, version, faults)|
  {
    hide ApplyFirst, ApplyOverride, SkippedBelow, ErrorsBelow, Rejects, MutationSize, FaultOf, IsSkipped, IsError;
    if k == 0 {
      NothingApplied(db, version, faults);
      NothingCountedYet(db, version, faults);
    } else {
      PassCounts(db, k - 1, version, faults);
      ApplyNext(db, k, version, faults);
      MetAsStaged(db, k - 1, version, faults);
      OneMoreSkipped(db, k - 1);
      OneMoreError(db, k - 1, version, faults);
      var o, fault := db.overrides[k - 1], FaultOf(faults, k - 1);
      if o.stamp.None? {
        CountsOfOne(ApplyFirst(db, k - 1, version, faults), k - 1, version, fault);
      } else {
        StampedIsNotCounted(Before(db, k - 1, version, faults), o, fault);
      }
    }
  }

  // ---------------------------------------------------------------- what is left of an override after the scan

  // A later override that names service x, or takes connection `row` of id c away or rewrites it.
  predicate NamesService(o: Override, x: nat) {
    o.stamp.None? && o.kind.OnService? && o.target == x
  }

  predicate NamesConnection(o: Override, c: nat, row: Connection) {
    o.stamp.None?
    && if o.kind.OnConnection? then o.target == c
       else o.action.Delete? && (o.target == row.source || o.target == row.target)
  }

  lemma StepKeepsService(db: Tables, o: Override, fault: Option<nat>, after: Tables, x: nat)
    requires StepDoes(db, o, fault, after)
    ensures x !in db.services ==> x !in after.services
    ensures x in db.services && !NamesService(o, x) ==> x in after.services && after.services[x] == db.services[x]
  {
    hide Rejects, MutationSize, IsTrimmed, Renamed, Rebased, Repointed;
  }

  lemma StepKeepsConnection(db: Tables, o: Override, fault: Option<nat>, after: Tables, c: nat)
    requires StepDoes(db, o, fault, after)
    ensures c !in db.connections ==> c !in after.connections
    ensures c in db.connections && !NamesConnection(o, c, db.connections[c]) ==>
              c in after.connections && after.connections[c] == db.connections[c]
  {
    hide Rejects, IsTrimmed, Renamed, Rebased, Repointed;
  }

  lemma {:induction false} ServiceStands(db: Tables, version: nat, faults: map<nat, nat>, i: nat, k: nat, x: nat)
    requires i <= k <= |db.overrides|
    ensures var before, after := Before(db, i, version, faults).services, Before(db, k, version, faults).services;
            && (x !in before ==> x !in after)
            && (x in before && (forall j :: i <= j < k ==> !NamesService(db.overrides[j], x)) ==>
                  x in after && after[x] == before[x])
    decreases k - i
  {
    hide Before, StepDoes, ApplyPendingOverrides, Runs, NamesService;
    if i < k {
      PassDoes(db, version, faults, i);
      var before, after := Before(db, i, version, faults), Before(db, i + 1, version, faults);
      StepKeepsService(before, db.overrides[i], FaultOf(faults, i), after.(overrides := before.overrides), x);
      ServiceStands(db, version, faults, i + 1, k, x);
    }
  }

  lemma {:induction false} ConnectionStands(db: Tables, version: nat, faults: map<nat, nat>, i: nat, k: nat, c: nat)
    requires i <= k <= |db.overrides|
    ensures var before, after := Before(db, i, version, faults).connections, Before(db, k, version, faults).connections;
            && (c !in before ==> c !in after)
            && (c in before && (forall j :: i <= j < k ==> !NamesConnection(db.overrides[j], c, before[c])) ==>
                  c in after && after[c] == before[c])
    decreases k - i
  {
    hide Before, StepDoes, ApplyPendingOverrides, Runs, NamesConnection;
    if i < k {
      PassDoes(db, version, faults, i);
      var before, after := Before(db, i, version, faults), Before(db, i + 1, version, faults);
      StepKeepsConnection(before, db.overrides[i], FaultOf(faults, i), after.(overrides := before.overrides), c);
      ConnectionStands(db, version, faults, i + 1, k, c);
    }
  }

  // What an override that ran shows in services, if its row is still there.
  ghost predicate ShowsInService(o: Override, services: map<nat, Service>) {
    if o.action.Delete? then o.target !in services
    else if o.target !in services then true
    else if o.action.Rename? then
      o.payload.Json? && o.payload.newName.Some? && !IsTrimmed(o.payload.newName.value, "") ==>
        IsTrimmed(o.payload.newName.value, services[o.target].name)
    else
      o.payload.Json? &&
      services[o.target].basePath == if o.payload.basePath == Some("") then None else o.payload.basePath
  }

  ghost predicate ShowsInConnection(o: Override, connections: map<nat, Connection>) {
    if o.action.Delete? then o.target !in connections
    else if o.target !in connections then true
    else
      && o.payload.Json?
      && (o.payload.source.Some? ==> connections[o.target].source == o.payload.source.value)
      && (o.payload.target.Some? ==> connections[o.target].target == o.payload.target.value)
      && (o.payload.evidence.Some? ==> connections[o.target].details.evidence == o.payload.evidence)
  }

  lemma DoneShowsInService(db: Tables, o: Override, after: Tables)
    requires o.kind.OnService? && Allowed(o) && Does(db, o, after)
    ensures ShowsInService(o, after.services)
  {
    hide IsTrimmed, Unconnected, OnlyConnection;
  }

  lemma DoneShowsInConnection(db: Tables, o: Override, after: Tables)
    requires o.kind.OnConnection? && Allowed(o) && Does(db, o, after)
    ensures ShowsInConnection(o, after.connections)
  {
    hide IsTrimmed, OnlyService;
  }

  // No later pending override names the row of override i.
  ghost predicate IsLastOnService(overrides: seq<Override>, i: nat)
    requires i < |overrides|
  {
    forall j :: i < j < |overrides| ==> !NamesService(overrides[j], overrides[i].target)
  }

  ghost predicate IsLastOnConnection(overrides: seq<Override>, i: nat)
    requires i < |overrides|
  {
    forall j, row :: i < j < |overrides| ==> !NamesConnection(overrides[j], overrides[i].target, row)
  }

  // An override that ran shows in its row at the end of the pass, unless a later one names the row.
  lemma OverrideShows(db: Tables, version: nat, faults: map<nat, nat>, i: nat)
    requires var p := ApplyPendingOverrides(db, version, faults); i in p.applied || i in p.unstamped
    ensures i < |db.overrides|
    ensures var o, after := db.overrides[i], ApplyPendingOverrides(db, version, faults).db;
            && (o.kind.OnService? && IsLastOnService(db.overrides, i) ==> ShowsInService(o, after.services))
            && (o.kind.OnConnection? && IsLastOnConnection(db.overrides, i) ==> ShowsInConnection(o, after.connections))
  {
    hide Does, Rejects, NamesService, NamesConnection, ShowsInService, ShowsInConnection, ApplyFirst, Completes,
         StampFails;
    StampedUnlessTheStampFails(db, |db.overrides|, version, faults, i);
    PassDoes(db, version, faults, i);
    hide ApplyPendingOverrides;
    var o, before, after := db.overrides[i], Before(db, i, version, faults), Before(db, i + 1, version, faults);
    EndOfPass(db, version, faults);
    if o.kind.OnService? {
      DoneShowsInService(before, o, after.(overrides := before.overrides));
      ServiceStands(db, version, faults, i + 1, |db.overrides|, o.target);
    } else {
      DoneShowsInConnection(before, o, after.(overrides := before.overrides));
      ConnectionStands(db, version, faults, i + 1, |db.overrides|, o.target);
    }
    SameRowShows(o, after, ApplyPendingOverrides(db, version, faults).db);
  }

  lemma EndOfPass(db: Tables, version: nat, faults: map<nat, nat>)
    ensures Before(db, |db.overrides|, version, faults) == ApplyPendingOverrides(db, version, faults).db
  {
  }

  // A row that is in b is the one in a.
  ghost predicate SameRow<R>(id: nat, a: map<nat, R>, b: map<nat, R>) {
    id in b ==> id in a && b[id] == a[id]
  }

  lemma SameRowShows(o: Override, a: Tables, b: Tables)
    ensures SameRow(o.target, a.services, b.services) && ShowsInService(o, a.services) ==>
              ShowsInService(o, b.services)
    ensures SameRow(o.target, a.connections, b.connections) && ShowsInConnection(o, a.connections) ==>
              ShowsInConnection(o, b.connections)
  {
    hide IsTrimmed;
  }

  // In a scan that commits, an override that ran shows in its row of the committed tables, if endScan leaves the row
  // and
  // no later override names it.
  lemma OverrideShowsAfterScan(db: Tables, s: Scan, i: nat)
    requires Settled(db) && WriteTx(db, s).Done? && (i in PassOf(db, s).applied || i in PassOf(db, s).unstamped)
    ensures i < |db.overrides|
    ensures var o, after := db.overrides[i], WriteTx(db, s).value;
            && (o.kind.OnService? && IsLastOnService(db.overrides, i) ==> ShowsInService(o, after.services))
            && (o.kind.OnConnection? && IsLastOnConnection(db.overrides, i) ==> ShowsInConnection(o, after.connections))
  {
    hide Settled, WellFormed, NamesService, NamesConnection, ShowsInService, ShowsInConnection, ApplyFirst;
    FindingsKeepOverrides(db, s);
    var d4, n := AfterFindings(db, s).value, NewVersion(db, s);
    ApplyFirstKeepsIntegrity(d4, |d4.overrides|, n, s.faults);
    OverrideShows(d4, n, s.faults, i);
    hide AfterFindings;
    var d5 := ApplyPendingOverrides(d4, n, s.faults).db;
    EndScanClosedForm(d5, s.repo, n, s.now);
    hide EndScan, ApplyPendingOverrides;
    RowsOfResult(d5, s.repo, n, s.now, db.overrides[i].target);
    SameRowShows(db.overrides[i], d5, WriteTx(db, s).value);
  }

  lemma RowsOfResult(db: Tables, repo: nat, n: nat, now: int, id: nat)
    requires n in db.versions
    ensures SameRow(id, db.services, EndScanResult(db, repo, n, now).services)
    ensures SameRow(id, db.connections, EndScanResult(db, repo, n, now).connections)
  {
  }
}
