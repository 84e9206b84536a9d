// detectMismatches of worker/db/query-engine.js: which HTTP-style connections call an endpoint their target
// does not expose.
module Mismatches {
  import opened Common
  import opened Text
  import opened Paths

  datatype Service = Service(name: string, basePath: Option<string>)
  datatype Connection = Connection(id: nat, source: nat, target: nat, protocol: string, verb: Option<string>,
                                   path: Option<string>)
  datatype Exposure = Exposure(service: nat, verb: Option<string>, path: string)
  datatype Mismatch = Mismatch(connection: nat, source: string, target: string, detail: string)

  // ---------------------------------------------------------------- what a mismatch is

  // An exposure answers a call when the paths are equal up to parameter names, and the methods are equal up to
  // case and surrounding space or one of them is unknown.
  predicate Answers(e: Exposure, consumed: Option<string>, path: string) {
    Canonicalize(e.path) == Canonicalize(path)
    && (consumed.None? || NormalizeMethod(e.verb).None? || NormalizeMethod(e.verb) == consumed)
  }

  ghost predicate Answered(exposed: seq<Exposure>, target: nat, consumed: Option<string>, path: string) {
    exists e :: e in exposed && e.service == target && Answers(e, consumed, path)
  }

  // The path as it stands, or below the target's base path.
  ghost predicate Found(exposed: seq<Exposure>, target: nat, basePath: Option<string>, verb: Option<string>,
                        path: string) {
    Answered(exposed, target, NormalizeMethod(verb), path)
    || (StripBasePath(path, basePath).Some?
        && Answered(exposed, target, NormalizeMethod(verb), StripBasePath(path, basePath).value))
  }

  predicate IsHttp(c: Connection) {
    c.protocol in {"rest", "grpc"} && c.path.Some?
  }

  predicate ExposesSomething(exposed: seq<Exposure>, target: nat) {
    exists i :: 0 <= i < |exposed| && exposed[i].service == target
  }

  predicate IsCandidate(services: map<nat, Service>, exposed: seq<Exposure>, c: Connection) {
    c.source in services && c.target in services && IsHttp(c) && ExposesSomething(exposed, c.target)
  }

  ghost predicate IsMismatch(services: map<nat, Service>, exposed: seq<Exposure>, c: Connection) {
    IsCandidate(services, exposed, c) && !Found(exposed, c.target, services[c.target].basePath, c.verb, c.path.value)
  }

  function Describe(services: map<nat, Service>, c: Connection): Mismatch
    requires c.source in services && c.target in services && c.path.Some?
  {
    var target := services[c.target].name;
    Mismatch(c.id, services[c.source].name, target,
             (if c.verb.GetOr("") == "" then c.protocol else c.verb.value) + " " + c.path.value + " \U{2014} " + target
             + " does not expose this endpoint")
  }

  ghost function Mismatches(services: map<nat, Service>, exposed: seq<Exposure>, connections: seq<Connection>)
      : seq<Mismatch>
  {
    if connections == [] then []
    else
      var c := connections[|connections| - 1];
      Mismatches(services, exposed, connections[..|connections| - 1])
      + (if IsMismatch(services, exposed, c) then [Describe(services, c)] else [])
  }

  // What one entry says: the connection, the names of its two services, and its method, or its protocol if it has none,
  // and its path in words.
  ghost predicate SaysOf(m: Mismatch, services: map<nat, Service>, c: Connection) {
    && m.connection == c.id && c.source in services && c.target in services && c.path.Some?
    && m.source == services[c.source].name && m.target == services[c.target].name
    && m.detail == (if c.verb.None? || c.verb.value == "" then c.protocol else c.verb.value)
                   + " " + c.path.value + " \U{2014} " + m.target + " does not expose this endpoint"
  }

  // One entry for each mismatch among the connections, in their order: entry k is that of connection at[k].
  ghost predicate Lists(mismatches: seq<Mismatch>, services: map<nat, Service>, exposed: seq<Exposure>,
                        connections: seq<Connection>, at: seq<nat>)
  {
    && |at| == |mismatches|
    && (forall k :: 0 <= k < |at| ==>
          at[k] < |connections| && IsMismatch(services, exposed, connections[at[k]])
          && SaysOf(mismatches[k], services, connections[at[k]]))
    && (forall j, k :: 0 <= j < k < |at| ==> at[j] < at[k])
    && (forall i: nat :: i < |connections| && IsMismatch(services, exposed, connections[i]) ==> i in at)
  }

  ghost predicate ListsAll(mismatches: seq<Mismatch>, services: map<nat, Service>, exposed: seq<Exposure>,
                           connections: seq<Connection>)
  {
    exists at :: Lists(mismatches, services, exposed, connections, at)
  }

  lemma DescribeSays(services: map<nat, Service>, c: Connection)
    requires c.source in services && c.target in services && c.path.Some?
    ensures SaysOf(Describe(services, c), services, c)
  {
  }

  lemma OneMoreListed(mismatches: seq<Mismatch>, services: map<nat, Service>, exposed: seq<Exposure>,
                      front: seq<Connection>, c: Connection, at: seq<nat>, m: Mismatch)
    requires Lists(mismatches, services, exposed, front, at)
    requires IsMismatch(services, exposed, c) && SaysOf(m, services, c)
    ensures Lists(mismatches + [m], services, exposed, front + [c], at + [|front|])
  {
    hide IsMismatch, SaysOf;
    var all := front + [c];
    assert forall i :: 0 <= i < |front| ==> all[i] == front[i];
    assert all[|front|] == c;
  }

  lemma NoneMoreListed(mismatches: seq<Mismatch>, services: map<nat, Service>, exposed: seq<Exposure>,
                       front: seq<Connection>, c: Connection, at: seq<nat>)
    requires Lists(mismatches, services, exposed, front, at) && !IsMismatch(services, exposed, c)
    ensures Lists(mismatches, services, exposed, front + [c], at)
  {
    hide IsMismatch, SaysOf;
    var all := front + [c];
    assert forall i :: 0 <= i < |front| ==> all[i] == front[i];
    assert all[|front|] == c;
  }

  lemma {:induction false} MismatchesAreListed(services: map<nat, Service>, exposed: seq<Exposure>,
                                               connections: seq<Connection>) returns (at: seq<nat>)
    ensures Lists(Mismatches(services, exposed, connections), services, exposed, connections, at)
  {
    at := [];
    if connections != [] {
      var front, c := connections[..|connections| - 1], connections[|connections| - 1];
      at := MismatchesAreListed(services, exposed, front);
      assert front + [c] == connections;
      var earlier := Mismatches(services, exposed, front);
      if IsMismatch(services, exposed, c) {
        DescribeSays(services, c);
        OneMoreListed(earlier, services, exposed, front, c, at, Describe(services, c));
        at := at + [|front|];
      } else {
        assert Mismatches(services, exposed, connections) == earlier;
        NoneMoreListed(earlier, services, exposed, front, c, at);
      }
    }
  }

  // ---------------------------------------------------------------- a mismatch in plain terms

  // No method to compare.
  ghost predicate IsBlank(verb: Option<string>) {
    verb.None? || IsTrimmed(verb.value, "")
  }

  // The methods are one but for case and surrounding space, or one of them is blank.
  ghost predicate MethodsMeet(a: Option<string>, b: Option<string>) {
    IsBlank(a) || IsBlank(b)
    || exists s, t :: IsTrimmed(a.value, s) && IsTrimmed(b.value, t) && Upper(s) == Upper(t)
  }

  // The endpoint is the one called: the paths differ in parameter texts at most.
  ghost predicate Matches(e: Exposure, verb: Option<string>, path: string) {
    SameShape(e.path, path) && MethodsMeet(e.verb, verb)
  }

  // base is the base path, which may have one more slash at its end.
  ghost predicate IsBase(basePath: Option<string>, base: string) {
    && basePath.Some? && base != ""
    && (basePath.value == base + "/" || (basePath.value == base && base[|base| - 1] != '/'))
  }

  // path is rest below the base path; the base path itself is "/".
  ghost predicate IsBelow(path: string, basePath: Option<string>, rest: string) {
    exists base :: IsBase(basePath, base)
                   && ((path == base && rest == "/") || (rest != "" && rest[0] == '/' && path == base + rest))
  }

  // A REST or gRPC call with a path, to a target that exposes something, none of it the path called or, below its base
  // path, the rest of it.
  ghost predicate IsMissing(services: map<nat, Service>, exposed: seq<Exposure>, c: Connection) {
    && c.source in services && c.target in services && (c.protocol == "rest" || c.protocol == "grpc") && c.path.Some?
    && (exists e :: e in exposed && e.service == c.target)
    && forall e :: e in exposed && e.service == c.target ==>
         && !Matches(e, c.verb, c.path.value)
         && forall rest :: IsBelow(c.path.value, services[c.target].basePath, rest) ==> !Matches(e, c.verb, rest)
  }

  lemma MethodsMeetIff(a: Option<string>, b: Option<string>)
    ensures MethodsMeet(a, b)
            <==> NormalizeMethod(a).None? || NormalizeMethod(b).None? || NormalizeMethod(a) == NormalizeMethod(b)
  {
    BlankIff(a);
    BlankIff(b);
    if a.Some? && b.Some? {
      TrimIs(a.value);
      TrimIs(b.value);
      if s, t :| IsTrimmed(a.value, s) && IsTrimmed(b.value, t) && Upper(s) == Upper(t) {
        TrimmedIsOne(a.value, s, Trim(a.value));
        TrimmedIsOne(b.value, t, Trim(b.value));
      }
    }
    hide IsTrimmed, Trim, Upper;
  }

  lemma BlankIff(verb: Option<string>)
    ensures IsBlank(verb) <==> NormalizeMethod(verb).None?
  {
    if verb.Some? {
      TrimIs(verb.value);
      if IsTrimmed(verb.value, "") {
        TrimmedIsOne(verb.value, "", Trim(verb.value));
      }
    }
    hide IsTrimmed, Trim, Upper;
  }

  lemma MatchesIff(e: Exposure, verb: Option<string>, path: string)
    ensures Matches(e, verb, path) <==> Answers(e, NormalizeMethod(verb), path)
  {
    SameCanonicalFormIffSameShape(e.path, path);
    MethodsMeetIff(e.verb, verb);
    hide Shape, Tokens, MethodsMeet, NormalizeMethod, Canonicalize;
  }

  lemma BelowIff(path: string, basePath: Option<string>, rest: string)
    ensures IsBelow(path, basePath, rest) <==> StripBasePath(path, basePath) == Some(rest)
  {
    var bp := NormalizedBase(basePath);
    BaseIff(basePath, bp);
    if base :| IsBase(basePath, base)
               && ((path == base && rest == "/") || (rest != "" && rest[0] == '/' && path == base + rest))
    {
      BaseIff(basePath, base);
      RestBelow(path, base, rest);
    }
    hide NormalizedBase, IsBase;
  }

  lemma BaseIff(basePath: Option<string>, base: string)
    ensures IsBase(basePath, base) <==> base != "" && base == NormalizedBase(basePath)
  {
    if basePath.Some? && basePath.value == base + "/" {
      assert basePath.value[..|basePath.value| - 1] == base;
    }
    if basePath.Some? && basePath.value != "" && basePath.value[|basePath.value| - 1] == '/' {
      assert basePath.value == basePath.value[..|basePath.value| - 1] + "/";
    }
  }

  lemma RestBelow(path: string, base: string, rest: string)
    requires (path == base && rest == "/") || (rest != "" && rest[0] == '/' && path == base + rest)
    ensures base <= path && (|path| > |base| ==> path[|base|] == '/' && path[|base|..] == rest)
    ensures |path| == |base| ==> rest == "/" && path == base
  {
  }

  // What the definition above says, without its normal forms.
  lemma MismatchIff(services: map<nat, Service>, exposed: seq<Exposure>, c: Connection)
    ensures IsMismatch(services, exposed, c) <==> IsMissing(services, exposed, c)
  {
    hide Matches, IsBelow, Answers, StripBasePath, NormalizeMethod;
    if c.path.Some? && c.target in services {
      var path, basePath := c.path.value, services[c.target].basePath;
      forall e, p ensures Matches(e, c.verb, p) <==> Answers(e, NormalizeMethod(c.verb), p) {
        MatchesIff(e, c.verb, p);
      }
      forall rest ensures IsBelow(path, basePath, rest) <==> StripBasePath(path, basePath) == Some(rest) {
        BelowIff(path, basePath, rest);
      }
      ExposesIff(exposed, c.target);
      hide ExposesSomething;
    }
  }

  lemma ExposesIff(exposed: seq<Exposure>, target: nat)
    ensures ExposesSomething(exposed, target) <==> exists e :: e in exposed && e.service == target
  {
    if e :| e in exposed && e.service == target {
      var i :| 0 <= i < |exposed| && exposed[i] == e;
    }
    if i :| 0 <= i < |exposed| && exposed[i].service == target {
      assert exposed[i] in exposed;
    }
  }

  // ---------------------------------------------------------------- the batched computation

  function OfTarget(exposed: seq<Exposure>, target: nat): seq<Exposure> {
    if exposed == [] then []
    else
      var last := exposed[|exposed| - 1];
      OfTarget(exposed[..|exposed| - 1], target) + (if last.service == target then [last] else [])
  }

  lemma {:induction false} OfTargetMembers(exposed: seq<Exposure>, target: nat)
    ensures forall e :: e in OfTarget(exposed, target) <==> e in exposed && e.service == target
  {
    if exposed != [] {
      var last, front := exposed[|exposed| - 1], exposed[..|exposed| - 1];
      assert forall e :: e in exposed <==> e in front || e == last;
      OfTargetMembers(front, target);
    }
  }

  function At<V>(m: map<nat, seq<V>>, k: nat): seq<V> {
    if k in m then m[k] else []
  }

  method GroupByTarget(exposed: seq<Exposure>, targets: set<nat>) returns (byTarget: map<nat, seq<Exposure>>)
    ensures forall t :: t in targets ==> At(byTarget, t) == OfTarget(exposed, t)
  {
    byTarget := map[];
    for i := 0 to |exposed|
      invariant forall t :: t in targets ==> At(byTarget, t) == OfTarget(exposed[..i], t)
    {
      var e := exposed[i];
      assert exposed[..i + 1][..i] == exposed[..i];
      if e.service in targets {
        byTarget := byTarget[e.service := At(byTarget, e.service) + [e]];
      }
    }
    assert exposed[..|exposed|] == exposed;
  }

  datatype Tables = Tables(byMethod: map<string, set<string>>, wildcard: set<string>, all: set<string>) {
    // The closure isExposed.
    predicate Exposes(consumed: Option<string>, canon: string) {
      match consumed
      case None => canon in all
      case Some(m) => (m in byMethod && canon in byMethod[m]) || canon in wildcard
    }
  }

  ghost predicate InAll(rows: seq<Exposure>, canon: string) {
    exists e :: e in rows && Canonicalize(e.path) == canon
  }

  ghost predicate InWildcard(rows: seq<Exposure>, canon: string) {
    exists e :: e in rows && Canonicalize(e.path) == canon && NormalizeMethod(e.verb).None?
  }

  ghost predicate InMethod(rows: seq<Exposure>, m: string, canon: string) {
    exists e :: e in rows && Canonicalize(e.path) == canon && NormalizeMethod(e.verb) == Some(m)
  }

  ghost predicate Holds(t: Tables, rows: seq<Exposure>) {
    && (forall canon :: canon in t.all <==> InAll(rows, canon))
    && (forall canon :: canon in t.wildcard <==> InWildcard(rows, canon))
    && (forall m, canon :: (m in t.byMethod && canon in t.byMethod[m]) <==> InMethod(rows, m, canon))
  }

  function Add(t: Tables, e: Exposure): Tables {
    var canon := Canonicalize(e.path);
    match NormalizeMethod(e.verb)
    case None => t.(all := t.all + {canon}, wildcard := t.wildcard + {canon})
    case Some(m) =>
      t.(all := t.all + {canon}, byMethod := t.byMethod[m := (if m in t.byMethod then t.byMethod[m] else {}) + {canon}])
  }

  lemma OneMoreRow(rows: seq<Exposure>, e: Exposure)
    ensures forall canon :: InAll(rows + [e], canon) <==> InAll(rows, canon) || Canonicalize(e.path) == canon
    ensures forall canon :: InWildcard(rows + [e], canon)
                            <==> InWildcard(rows, canon)
                                 || (Canonicalize(e.path) == canon && NormalizeMethod(e.verb).None?)
    ensures forall m, canon :: InMethod(rows + [e], m, canon)
                               <==> InMethod(rows, m, canon)
                                    || (Canonicalize(e.path) == canon && NormalizeMethod(e.verb) == Some(m))
  {
    hide Canonicalize, NormalizeMethod;
    assert forall x :: x in rows + [e] <==> x in rows || x == e;
  }

  lemma AddHolds(t: Tables, rows: seq<Exposure>, e: Exposure)
    requires Holds(t, rows)
    ensures Holds(Add(t, e), rows + [e])
  {
    OneMoreRow(rows, e);
    hide Canonicalize, NormalizeMethod, InAll, InWildcard, InMethod;
  }

  method BuildTables(rows: seq<Exposure>) returns (t: Tables)
    ensures Holds(t, rows)
  {
    var byMethod: map<string, set<string>>, wildcard, all := map[], {}, {};
    for i := 0 to |rows|
      invariant Holds(Tables(byMethod, wildcard, all), rows[..i])
    {
      assert rows[..i + 1] == rows[..i] + [rows[i]];
      AddHolds(Tables(byMethod, wildcard, all), rows[..i], rows[i]);
      hide Holds;
      var canon := Canonicalize(rows[i].path);
      all := all + {canon};
      var verb := NormalizeMethod(rows[i].verb);
      if verb.None? {
        wildcard := wildcard + {canon};
      } else {
        var paths := if verb.value in byMethod then byMethod[verb.value] else {};
        byMethod := byMethod[verb.value := paths + {canon}];
      }
    }
    assert rows[..|rows|] == rows;
    t := Tables(byMethod, wildcard, all);
  }

  // The three tables of a target say what a search through all exposures says.
  lemma TablesAnswer(t: Tables, exposed: seq<Exposure>, target: nat, consumed: Option<string>, path: string)
    requires Holds(t, OfTarget(exposed, target))
    ensures t.Exposes(consumed, Canonicalize(path)) <==> Answered(exposed, target, consumed, path)
  {
    OfTargetMembers(exposed, target);
    hide Canonicalize, NormalizeMethod, OfTarget;
    var rows, canon := OfTarget(exposed, target), Canonicalize(path);
    match consumed {
      case None =>
        assert forall e :: Answers(e, consumed, path) <==> Canonicalize(e.path) == canon;
        assert InAll(rows, canon) <==> Answered(exposed, target, consumed, path);
      case Some(m) =>
        assert forall e :: Answers(e, consumed, path) <==>
          Canonicalize(e.path) == canon && (NormalizeMethod(e.verb).None? || NormalizeMethod(e.verb) == Some(m));
        assert InMethod(rows, m, canon) || InWildcard(rows, canon) <==> Answered(exposed, target, consumed, path);
    }
  }

  function Targets(rows: seq<Connection>): set<nat> {
    set i | 0 <= i < |rows| :: rows[i].target
  }

  function Candidates(services: map<nat, Service>, exposed: seq<Exposure>, connections: seq<Connection>)
      : seq<Connection>
  {
    if connections == [] then []
    else
      var c := connections[|connections| - 1];
      Candidates(services, exposed, connections[..|connections| - 1])
          + (if IsCandidate(services, exposed, c) then [c] else [])
  }

  lemma MismatchIsCandidate(services: map<nat, Service>, exposed: seq<Exposure>, c: Connection)
    ensures IsMismatch(services, exposed, c) ==>
              IsCandidate(services, exposed, c) && c.source in services && c.target in services && c.path.Some?
  {
  }

  lemma {:induction false} CandidatesAre(services: map<nat, Service>, exposed: seq<Exposure>,
                                         connections: seq<Connection>)
    ensures forall c :: c in Candidates(services, exposed, connections) ==> IsCandidate(services, exposed, c)
  {
    if connections != [] {
      var c, front := connections[|connections| - 1], connections[..|connections| - 1];
      CandidatesAre(services, exposed, front);
      var rows := Candidates(services, exposed, front);
      if IsCandidate(services, exposed, c) {
        assert Candidates(services, exposed, connections) == rows + [c];
        assert forall x :: x in rows + [c] <==> x in rows || x == c;
      } else {
        assert Candidates(services, exposed, connections) == rows + [] == rows;
      }
    }
  }

  lemma NothingToReport(services: map<nat, Service>, exposed: seq<Exposure>)
    ensures Mismatches(services, exposed, []) == []
  {
  }

  lemma OneMoreConnection(services: map<nat, Service>, exposed: seq<Exposure>, rows: seq<Connection>, c: Connection)
    ensures c.source in services && c.target in services && c.path.Some? ==>
              Mismatches(services, exposed, rows + [c])
              == Mismatches(services, exposed, rows)
                  + (if IsMismatch(services, exposed, c) then [Describe(services, c)] else [])
    ensures !IsMismatch(services, exposed, c) ==>
            Mismatches(services, exposed, rows + [c]) == Mismatches(services, exposed, rows)
  {
    MismatchIsCandidate(services, exposed, c);
    hide IsMismatch, Describe;
    assert (rows + [c])[..|rows|] == rows;
  }

  lemma {:induction false} OnlyCandidatesMatter(services: map<nat, Service>, exposed: seq<Exposure>,
                                                connections: seq<Connection>)
    ensures Mismatches(services, exposed, Candidates(services, exposed, connections))
            == Mismatches(services, exposed, connections)
  {
    hide IsMismatch, Describe, Mismatches, ExposesSomething;
    if connections != [] {
      var c, front := connections[|connections| - 1], connections[..|connections| - 1];
      OnlyCandidatesMatter(services, exposed, front);
      MismatchIsCandidate(services, exposed, c);
      OneMoreConnection(services, exposed, front, c);
      var rows := Candidates(services, exposed, front);
      OneMoreConnection(services, exposed, rows, c);
      hide IsCandidate;
      assert front + [c] == connections;
      if IsCandidate(services, exposed, c) {
        assert Candidates(services, exposed, connections) == rows + [c];
      } else {
        assert Candidates(services, exposed, connections) == rows + [] == rows;
      }
    }
  }

  method DetectMismatches(services: map<nat, Service>, exposed: seq<Exposure>, connections: seq<Connection>)
    returns (mismatches: seq<Mismatch>)
    ensures mismatches == Mismatches(services, exposed, connections)
    ensures ListsAll(mismatches, services, exposed, connections)
  {
    ghost var at := MismatchesAreListed(services, exposed, connections);
    hide Lists, Describe, StripBasePath, NormalizeMethod, Canonicalize, Holds, IsHttp, ExposesSomething, OfTarget,
         Answered, Candidates, Mismatches;
    OnlyCandidatesMatter(services, exposed, connections);
    CandidatesAre(services, exposed, connections);
    NothingToReport(services, exposed);
    var rows := Candidates(services, exposed, connections);
    if |rows| == 0 { return []; }
    var byTarget := GroupByTarget(exposed, Targets(rows));
    mismatches := [];
    for i := 0 to |rows|
      invariant mismatches == Mismatches(services, exposed, rows[..i])
    {
      var c := rows[i];
      assert c in rows && rows[..i + 1] == rows[..i] + [c];
      OneMoreConnection(services, exposed, rows[..i], c);
      assert IsCandidate(services, exposed, c) && c.target in Targets(rows);
      PathOf(services, exposed, c);
      var tables := BuildTables(At(byTarget, c.target));
      var consumed := NormalizeMethod(c.verb);
      TablesAnswer(tables, exposed, c.target, consumed, c.path.value);
      var found := tables.Exposes(consumed, Canonicalize(c.path.value));
      if !found {
        var stripped := StripBasePath(c.path.value, services[c.target].basePath);
        if stripped.Some? {
          TablesAnswer(tables, exposed, c.target, consumed, stripped.value);
          found := tables.Exposes(consumed, Canonicalize(stripped.value));
        }
      }
      if !found {
        mismatches := mismatches + [Describe(services, c)];
      }
    }
    assert rows[..|rows|] == rows;
  }

  lemma PathOf(services: map<nat, Service>, exposed: seq<Exposure>, c: Connection)
    requires IsCandidate(services, exposed, c)
    ensures c.path.Some?
  {
  }

  // ---------------------------------------------------------------- what does not change the report

  ghost predicate SameEndpoint(d: Exposure, e: Exposure) {
    d.service == e.service && NormalizeMethod(d.verb) == NormalizeMethod(e.verb)
    && Shape(Tokens(d.path)) == Shape(Tokens(e.path))
  }

  ghost predicate Renamed(exposed: seq<Exposure>, renamed: seq<Exposure>) {
    |exposed| == |renamed| && forall i :: 0 <= i < |exposed| ==> SameEndpoint(exposed[i], renamed[i])
  }

  lemma AnsweredAfterRenaming(exposed: seq<Exposure>, renamed: seq<Exposure>, target: nat, consumed: Option<string>,
                              path: string)
    requires Renamed(exposed, renamed) && Answered(exposed, target, consumed, path)
    ensures Answered(renamed, target, consumed, path)
  {
    var i :| 0 <= i < |exposed| && exposed[i].service == target && Answers(exposed[i], consumed, path);
    assert SameEndpoint(exposed[i], renamed[i]);
    SameCanonicalFormIffSameShape(exposed[i].path, renamed[i].path);
    hide Canonicalize, NormalizeMethod, Tokens, Shape;
    assert Answers(renamed[i], consumed, path);
    assert renamed[i] in renamed;
  }

  lemma RenamedBack(exposed: seq<Exposure>, renamed: seq<Exposure>)
    requires Renamed(exposed, renamed)
    ensures Renamed(renamed, exposed)
  {
    forall i | 0 <= i < |exposed| ensures SameEndpoint(renamed[i], exposed[i]) {
      assert SameEndpoint(exposed[i], renamed[i]);
    }
  }

  lemma FoundAfterRenaming(exposed: seq<Exposure>, renamed: seq<Exposure>, target: nat, basePath: Option<string>,
                           verb: Option<string>, path: string)
    requires Renamed(exposed, renamed) && Found(exposed, target, basePath, verb, path)
    ensures Found(renamed, target, basePath, verb, path)
  {
    hide Answered, Renamed, StripBasePath, NormalizeMethod;
    if Answered(exposed, target, NormalizeMethod(verb), path) {
      AnsweredAfterRenaming(exposed, renamed, target, NormalizeMethod(verb), path);
    } else {
      AnsweredAfterRenaming(exposed, renamed, target, NormalizeMethod(verb), StripBasePath(path, basePath).value);
    }
  }

  lemma CandidateAfterRenaming(services: map<nat, Service>, exposed: seq<Exposure>, renamed: seq<Exposure>,
                               c: Connection)
    requires Renamed(exposed, renamed)
    ensures IsCandidate(services, exposed, c) <==> IsCandidate(services, renamed, c)
  {
    forall i | 0 <= i < |exposed| ensures exposed[i].service == renamed[i].service {
      assert SameEndpoint(exposed[i], renamed[i]);
    }
    hide Renamed;
  }

  // Renaming the parameters of exposed paths, or writing exposed methods in another case, changes nothing.
  lemma {:induction false} RenamingExposuresChangesNothing(services: map<nat, Service>, exposed: seq<Exposure>,
                                                           renamed: seq<Exposure>,
                                                           connections: seq<Connection>)
    requires Renamed(exposed, renamed)
    ensures Mismatches(services, renamed, connections) == Mismatches(services, exposed, connections)
  {
    if connections != [] {
      hide Found, Renamed, IsCandidate, Describe;
      var c := connections[|connections| - 1];
      RenamingExposuresChangesNothing(services, exposed, renamed, connections[..|connections| - 1]);
      RenamedBack(exposed, renamed);
      CandidateAfterRenaming(services, exposed, renamed, c);
      if IsCandidate(services, exposed, c) {
        CandidateHasAll(services, exposed, c);
        var base := services[c.target].basePath;
        if Found(exposed, c.target, base, c.verb, c.path.value) {
          FoundAfterRenaming(exposed, renamed, c.target, base, c.verb, c.path.value);
        }
        if Found(renamed, c.target, base, c.verb, c.path.value) {
          FoundAfterRenaming(renamed, exposed, c.target, base, c.verb, c.path.value);
        }
      }
    }
  }

  lemma CandidateHasAll(services: map<nat, Service>, exposed: seq<Exposure>, c: Connection)
    requires IsCandidate(services, exposed, c)
    ensures c.source in services && c.target in services && c.path.Some?
  {
  }

  lemma {:induction false} TrimOfUpper(s: string)
    ensures Trim(Upper(s)) == Upper(Trim(s))
  {
    TrimStartOfUpper(s);
    TrimEndOfUpper(TrimStart(s));
  }

  lemma {:induction false} TrimStartOfUpper(s: string)
    ensures TrimStart(Upper(s)) == Upper(TrimStart(s))
  {
    if s != "" {
      TrimStartOfUpper(s[1..]);
      assert Upper(s)[1..] == Upper(s[1..]);
    }
  }

  lemma {:induction false} TrimEndOfUpper(s: string)
    ensures TrimEnd(Upper(s)) == Upper(TrimEnd(s))
  {
    if s != "" {
      TrimEndOfUpper(s[..|s| - 1]);
      assert Upper(s)[..|s| - 1] == Upper(s[..|s| - 1]);
    }
  }

  // Methods that differ in case only, or in surrounding space, are one method.
  lemma MethodsIgnoreCaseAndSpace(s: string, t: string)
    requires Upper(Trim(s)) == Upper(Trim(t)) || Upper(s) == Upper(t)
    ensures NormalizeMethod(Some(s)) == NormalizeMethod(Some(t))
  {
    TrimOfUpper(s);
    TrimOfUpper(t);
  }

  // Endpoints added to targets that expose one already never add a mismatch.
  lemma MoreEndpointsNeverAddMismatches(services: map<nat, Service>, exposed: seq<Exposure>, more: seq<Exposure>,
                                        c: Connection)
    requires forall e :: e in exposed ==> e in more
    requires forall e :: e in more ==> ExposesSomething(exposed, e.service)
    requires IsMismatch(services, more, c)
    ensures IsMismatch(services, exposed, c)
  {
    hide StripBasePath, NormalizeMethod, Answers;
    assert exists e :: e in more && e.service == c.target;
  }

  // The first endpoint of a target can add one: before it, nothing the target is called with is looked at.
  lemma FirstEndpointAddsMismatchesIff(services: map<nat, Service>, exposed: seq<Exposure>, e: Exposure, c: Connection)
    requires !ExposesSomething(exposed, e.service) && c.target == e.service
    ensures !IsMismatch(services, exposed, c)
    ensures IsMismatch(services, exposed + [e], c)
            <==> c.source in services && c.target in services && IsHttp(c)
                 && !Answers(e, NormalizeMethod(c.verb), c.path.value)
                 && (StripBasePath(c.path.value, services[c.target].basePath).Some? ==>
                       !Answers(e, NormalizeMethod(c.verb),
                                StripBasePath(c.path.value, services[c.target].basePath).value))
  {
    hide StripBasePath, NormalizeMethod, Answers;
    var more := exposed + [e];
    assert more[|exposed|] == e;
    assert forall x :: x in more && x.service == e.service ==> x == e;
    assert e in more;
  }

  // A call of "/x" is no mismatch while its target exposes nothing, and is one once the target exposes "/y".
  lemma FirstEndpointAddsOne()
    ensures var services := map[1 := Service("a", None), 2 := Service("b", None)];
            var call, e := Connection(1, 1, 2, "rest", Some("GET"), Some("/x")), Exposure(2, Some("GET"), "/y");
            !IsMismatch(services, [], call) && IsMismatch(services, [e], call)
  {
    var services := map[1 := Service("a", None), 2 := Service("b", None)];
    var call, e := Connection(1, 1, 2, "rest", Some("GET"), Some("/x")), Exposure(2, Some("GET"), "/y");
    SegmentIsCopied('x');
    SegmentIsCopied('y');
    assert "/x"[1] != "/y"[1];
    hide Canonicalize, NormalizeMethod;
    FirstEndpointAddsMismatchesIff(services, [], e, call);
    assert [] + [e] == [e];
  }

  lemma SegmentIsCopied(c: char)
    requires c != '{'
    ensures Canonicalize(['/', c]) == ['/', c]
  {
    assert ['/', c][1..] == [c] && [c][1..] == "";
    assert !ParameterAtHead(['/', c]) && !ParameterAtHead([c]);
    assert Canonicalize([c]) == [c];
  }

  // ---------------------------------------------------------------- parameter names in the called path

  ghost predicate HasParameter(s: string) {
    exists i :: 0 <= i < |Tokens(s)| && Tokens(s)[i].Parameter?
  }

  ghost predicate SameShape(p: string, q: string) {
    Shape(Tokens(p)) == Shape(Tokens(q))
  }

  lemma RunAcrossSlash(a: string, b: string)
    requires b == "" || b[0] == '/'
    ensures Run(a + b) == Run(a)
  {
    if a == "" {
      assert a + b == b;
    } else if !Stops(a[0]) {
      RunAcrossSlash(a[1..], b);
      assert (a + b)[1..] == a[1..] + b;
    }
  }

  // A parameter never reaches across a slash.
  lemma {:induction false} TokensAcrossSlash(a: string, b: string)
    requires b == "" || b[0] == '/'
    ensures Tokens(a + b) == Tokens(a) + Tokens(b)
    decreases |a|
  {
    TokensOfNothing();
    hide Tokens, Run, ParameterAtHead, FirstOf, Rest;
    if a == "" {
      assert a + b == b;
    } else {
      HeadAcrossSlash(a, b);
      FirstToken(a);
      FirstToken(a + b);
      TokensAcrossSlash(Rest(a), b);
      Associates([FirstOf(a)], Tokens(Rest(a)), Tokens(b));
    }
  }

  function FirstOf(s: string): Token
    requires s != ""
  {
    if ParameterAtHead(s) then Parameter(s[1..1 + Run(s[1..])]) else Literal(s[0])
  }

  function Rest(s: string): string
    requires s != ""
  {
    if ParameterAtHead(s) then s[2 + Run(s[1..])..] else s[1..]
  }

  lemma FirstToken(s: string)
    requires s != ""
    ensures Tokens(s) == [FirstOf(s)] + Tokens(Rest(s)) && |Rest(s)| < |s|
  {
  }

  lemma TokensOfNothing()
    ensures Tokens("") == []
  {
  }

  lemma HeadAcrossSlash(a: string, b: string)
    requires a != "" && (b == "" || b[0] == '/')
    ensures ParameterAtHead(a + b) <==> ParameterAtHead(a)
    ensures FirstOf(a + b) == FirstOf(a) && Rest(a + b) == Rest(a) + b
  {
    assert (a + b)[1..] == a[1..] + b;
    RunAcrossSlash(a[1..], b);
    var n := Run(a[1..]);
    hide Run;
    assert ParameterAtHead(a + b) <==> ParameterAtHead(a);
    if ParameterAtHead(a) {
      assert (a + b)[1..1 + n] == a[1..1 + n];
      assert (a + b)[2 + n..] == a[2 + n..] + b;
    }
  }

  lemma Associates<T>(a: seq<T>, b: seq<T>, c: seq<T>)
    ensures a + (b + c) == (a + b) + c
  {
  }

  lemma SpellFirst(ts: seq<Token>)
    requires ts != []
    ensures Spell(ts) == TokenText(ts[0]) + Spell(ts[1..])
  {
  }

  lemma {:induction false} SpellOfConcat(a: seq<Token>, b: seq<Token>)
    ensures Spell(a + b) == Spell(a) + Spell(b)
  {
    SpellNothing();
    hide Spell, TokenText;
    if a == [] {
      assert a + b == b;
    } else {
      SpellFirst(a);
      SpellFirst(a + b);
      SpellOfConcat(a[1..], b);
      assert (a + b)[1..] == a[1..] + b;
      Associates(TokenText(a[0]), Spell(a[1..]), Spell(b));
    }
  }

  lemma SpellNothing()
    ensures Spell([]) == ""
  {
  }

  // Tokens that begin with literals, blanked, are those literals.
  lemma SameLiterals(base: seq<Token>, rest: seq<Token>, us: seq<Token>)
    requires forall i :: 0 <= i < |base| ==> base[i].Literal?
    requires Shape(base + rest) == Shape(us)
    ensures |us| == |base| + |rest| && us[..|base|] == base && Shape(us[|base|..]) == Shape(rest)
  {
    var ts := base + rest;
    assert forall i :: 0 <= i < |us| ==> Blank(us[i]) == Shape(us)[i] == Shape(ts)[i] == Blank(ts[i]);
    assert forall i :: 0 <= i < |base| ==> us[i] == ts[i] == base[i];
    assert forall i :: 0 <= i < |rest| ==>
           Blank(us[|base|..][i]) == Blank(us[|base| + i]) == Blank(ts[|base| + i]) == Blank(rest[i]);
  }

  // A path of the same shape has the same literal beginning.
  lemma SameLiteralBeginning(base: string, rest: string, q: string) returns (tail: string)
    requires !HasParameter(base) && (rest == "" || rest[0] == '/') && SameShape(base + rest, q)
    ensures q == base + tail && (tail == "" <==> rest == "") && (tail != "" ==> tail[0] == '/') && SameShape(rest, tail)
  {
    TokensAcrossSlash(base, rest);
    var k, us := |Tokens(base)|, Tokens(q);
    SameLiterals(Tokens(base), Tokens(rest), us);
    assert us == us[..k] + us[k..];
    SpellOfConcat(us[..k], us[k..]);
    SpellTokens(base);
    SpellTokens(q);
    tail := Spell(us[k..]);
    SlashFirst(rest, us[k..]);
    TokensAcrossSlash(base, tail);
    assert Tokens(tail) == us[k..] by {
      assert Tokens(base) + Tokens(tail) == us;
      assert us[k..] == (Tokens(base) + Tokens(tail))[k..];
    }
  }

  lemma SlashFirst(rest: string, us: seq<Token>)
    requires (rest == "" || rest[0] == '/') && Shape(us) == Shape(Tokens(rest))
    ensures Spell(us) == "" <==> rest == ""
    ensures rest != "" ==> Spell(us)[0] == '/'
  {
    assert |us| == |Tokens(rest)|;
    if rest != "" {
      assert Tokens(rest)[0] == Literal('/');
      assert Blank(us[0]) == Shape(us)[0] == Shape(Tokens(rest))[0] == Literal('/');
      assert Spell(us) == TokenText(us[0]) + Spell(us[1..]);
    }
  }

  lemma SameShapeStrips(basePath: Option<string>, p: string, q: string)
    requires !HasParameter(NormalizedBase(basePath)) && SameShape(p, q) && StripBasePath(p, basePath).Some?
    ensures StripBasePath(q, basePath).Some?
            && SameShape(StripBasePath(p, basePath).value, StripBasePath(q, basePath).value)
  {
    var base := NormalizedBase(basePath);
    var rest := p[|base|..];
    assert p == base + rest;
    var tail := SameLiteralBeginning(base, rest, q);
    assert q[|base|..] == tail;
  }

  lemma AnsweredSameShape(exposed: seq<Exposure>, target: nat, consumed: Option<string>, p: string, q: string)
    requires SameShape(p, q)
    ensures Answered(exposed, target, consumed, p) == Answered(exposed, target, consumed, q)
  {
    SameCanonicalFormIffSameShape(p, q);
    hide Canonicalize, NormalizeMethod, Tokens, Shape;
    assert forall e :: Answers(e, consumed, p) == Answers(e, consumed, q);
  }

  lemma FoundSameShape(exposed: seq<Exposure>, target: nat, basePath: Option<string>, verb: Option<string>, p: string,
                       q: string)
    requires !HasParameter(NormalizedBase(basePath)) && SameShape(p, q) && Found(exposed, target, basePath, verb, p)
    ensures Found(exposed, target, basePath, verb, q)
  {
    AnsweredSameShape(exposed, target, NormalizeMethod(verb), p, q);
    hide HasParameter, SameShape, Answered, StripBasePath, NormalizeMethod, NormalizedBase;
    if StripBasePath(p, basePath).Some? {
      SameShapeStrips(basePath, p, q);
      AnsweredSameShape(exposed, target, NormalizeMethod(verb), StripBasePath(p, basePath).value,
                        StripBasePath(q, basePath).value);
    }
  }

  // The first parameter gets a longer name.
  function Rename(s: string): string {
    if s == "" then ""
    else if ParameterAtHead(s) then "{_" + s[1..]
    else [s[0]] + Rename(s[1..])
  }

  lemma {:induction false} RunOfRename(s: string)
    requires Run(s) < |s| ==> s[Run(s)] == '/'
    ensures Run(Rename(s)) == Run(s) <= |Rename(s)|
    ensures Run(s) < |s| ==> Run(s) < |Rename(s)| && Rename(s)[Run(s)] == '/'
    ensures Run(s) == |s| ==> Rename(s) == s
  {
    if s != "" && !Stops(s[0]) {
      assert Run(s) == 1 + Run(s[1..]);
      RunOfRename(s[1..]);
      assert Rename(s)[1..] == Rename(s[1..]);
    }
  }

  lemma RenameAtHead(s: string)
    requires ParameterAtHead(s)
    ensures Rename(s) != s && ParameterAtHead(Rename(s)) && Rest(Rename(s)) == Rest(s)
  {
    hide Run;
    var r, n := Rename(s), Run(s[1..]);
    LongerHead(s[1..]);
    assert r == "{" + ("_" + s[1..]) && r[1..] == "_" + s[1..];
    RunOfLonger(s[1..]);
    hide Rename;
    assert r[2 + n] == s[1 + n];
    LongerTail(s, n);
  }

  lemma LongerHead(rest: string)
    ensures "{_" + rest == "{" + ("_" + rest)
  {
  }

  lemma LongerTail(s: string, n: nat)
    requires s != "" && 2 + n <= |s|
    ensures ("{" + ("_" + s[1..]))[3 + n..] == s[2 + n..]
  {
  }

  lemma RunOfLonger(s: string)
    ensures Run("_" + s) == 1 + Run(s)
  {
    assert ("_" + s)[1..] == s;
  }

  lemma RenameBelowLiteral(s: string)
    requires s != "" && !ParameterAtHead(s)
    ensures !ParameterAtHead(Rename(s)) && Rename(s)[0] == s[0] && Rest(Rename(s)) == Rename(s[1..])
  {
    var r := Rename(s);
    assert r[1..] == Rename(s[1..]);
    if s[0] == '{' {
      if Run(s[1..]) < |s[1..]| && s[1..][Run(s[1..])] == '}' {
        assert Run(s[1..]) == 0 && r[1..][0] == '}';
      } else {
        RunOfRename(s[1..]);
      }
    }
  }

  lemma {:induction false} RenameKeepsShape(s: string)
    ensures SameShape(s, Rename(s))
    ensures HasParameter(s) ==> Rename(s) != s
    decreases |s|
  {
    if s != "" {
      FirstToken(s);
      if ParameterAtHead(s) {
        RenameAtHead(s);
      } else {
        RenameKeepsShape(s[1..]);
        RenameBelowLiteral(s);
        ParameterBelow(s);
      }
      FirstToken(Rename(s));
      hide Tokens, Run, ParameterAtHead, Rename, HasParameter;
      ShapeOfCons(FirstOf(s), Tokens(Rest(s)));
      ShapeOfCons(FirstOf(Rename(s)), Tokens(Rest(Rename(s))));
    }
  }

  lemma ParameterBelow(s: string)
    requires s != "" && !ParameterAtHead(s)
    ensures HasParameter(s) ==> HasParameter(s[1..])
    ensures Rename(s) == s ==> Rename(s[1..]) == s[1..]
  {
    FirstToken(s);
    if HasParameter(s) {
      var i :| 0 <= i < |Tokens(s)| && Tokens(s)[i].Parameter?;
      assert Tokens(s[1..])[i - 1].Parameter?;
    }
    assert Rename(s)[1..] == Rename(s[1..]);
  }

  // If z/x begins with `base` up to a slash or the end, and z has as many slashes as base, z is base.
  lemma SlashesPlaceTheBase(base: string, z: string, x: string)
    requires Slashes(base) == Slashes(z) && base <= z + "/" + x
    requires |base| < |z + "/" + x| ==> (z + "/" + x)[|base|] == '/'
    ensures base == z
  {
    var p := z + "/" + x;
    if |base| < |z| {
      assert z == base + z[|base|..] && z[|base|] == '/';
      SlashesOfConcat(base, z[|base|..]);
      assert false;
    } else if |base| > |z| {
      assert base == z + base[|z|..] && base[|z|] == p[|z|] == '/';
      SlashesOfConcat(z, base[|z|..]);
      assert false;
    }
  }

  ghost predicate NamesDoNotMatter(basePath: Option<string>) {
    forall exposed, target, verb, p, q ::
      SameShape(p, q) && Found(exposed, target, basePath, verb, p) ==> Found(exposed, target, basePath, verb, q)
  }

  lemma SameShapeSameSlashes(p: string, q: string)
    requires SameShape(p, q)
    ensures Slashes(p) == Slashes(q)
  {
    SameCanonicalFormIffSameShape(p, q);
    CanonicalizeKeepsSlashes(p);
    CanonicalizeKeepsSlashes(q);
  }

  lemma StripsToX(basePath: Option<string>)
    requires NormalizedBase(basePath) != ""
    ensures StripBasePath(NormalizedBase(basePath) + "/x", basePath) == Some("/x")
  {
    var p := NormalizedBase(basePath) + "/x";
    assert p[|NormalizedBase(basePath)|..] == "/x";
  }

  lemma RenamedDoesNotStrip(basePath: Option<string>)
    requires HasParameter(NormalizedBase(basePath))
    ensures StripBasePath(Rename(NormalizedBase(basePath)) + "/x", basePath).None?
  {
    var base := NormalizedBase(basePath);
    var z := Rename(base);
    RenameKeepsShape(base);
    SameShapeSameSlashes(base, z);
    hide Rename, Slashes, HasParameter, SameShape, NormalizedBase;
    var q := z + "/x";
    if StripBasePath(q, basePath).Some? {
      assert q == z + "/" + "x";
      SlashesPlaceTheBase(base, z, "x");
    }
  }

  lemma RenamedBelow(base: string)
    ensures SameShape(base + "/x", Rename(base) + "/x")
  {
    RenameKeepsShape(base);
    TokensAcrossSlash(base, "/x");
    TokensAcrossSlash(Rename(base), "/x");
    ShapeOfConcat(Tokens(base), Tokens("/x"));
    ShapeOfConcat(Tokens(Rename(base)), Tokens("/x"));
  }

  // GET base/x is answered by GET /x of the target, but not once the base's parameter has another name in it.
  lemma NamesMatterWithParameter(basePath: Option<string>)
    requires HasParameter(NormalizedBase(basePath))
    ensures !NamesDoNotMatter(basePath)
  {
    var base := NormalizedBase(basePath);
    var p, q := base + "/x", Rename(base) + "/x";
    RenamedBelow(base);
    NotTheLiteral(base, q);
    RenamedDoesNotStrip(basePath);
    assert base != "";
    StripsToX(basePath);
    hide Rename, Tokens, Shape, SameShape, HasParameter, StripBasePath, NormalizedBase, Canonicalize;
    var e := Exposure(0, None, "/x");
    var exposed := [e];
    assert Answers(e, NormalizeMethod(None), "/x") && e in exposed;
    assert Found(exposed, 0, basePath, None, p);
    assert !Answered(exposed, 0, NormalizeMethod(None), q);
    assert !Found(exposed, 0, basePath, None, q);
  }

  lemma ShapeOfConcat(a: seq<Token>, b: seq<Token>)
    ensures Shape(a + b) == Shape(a) + Shape(b)
  {
  }

  lemma NotTheLiteral(base: string, q: string)
    requires HasParameter(base) && SameShape(base + "/x", q)
    ensures Canonicalize(q) != Canonicalize("/x")
  {
    TokensAcrossSlash(base, "/x");
    SameCanonicalFormIffSameShape(q, "/x");
    var i :| 0 <= i < |Tokens(base)| && Tokens(base)[i].Parameter?;
    assert Tokens(base + "/x")[i].Parameter?;
    assert Shape(Tokens(base + "/x"))[i].Parameter?;
    NoParameterIn();
  }

  lemma NoParameterIn()
    ensures forall i :: 0 <= i < |Shape(Tokens("/x"))| ==> Shape(Tokens("/x"))[i].Literal?
  {
    assert "/x"[1..] == "x" && "x"[1..] == "";
    assert Tokens("x") == [Literal('x')];
    assert Tokens("/x") == [Literal('/')] + Tokens("x");
  }

  // Renaming the parameters of called paths never changes a verdict iff the target's base path has none: the
  // base path is compared character by character, before the names are blanked.
  lemma NamesDoNotMatterIff(basePath: Option<string>)
    ensures NamesDoNotMatter(basePath) <==> !HasParameter(NormalizedBase(basePath))
  {
    if HasParameter(NormalizedBase(basePath)) {
      NamesMatterWithParameter(basePath);
    } else {
      forall exposed, target, verb, p, q | SameShape(p, q) && Found(exposed, target, basePath, verb, p)
        ensures Found(exposed, target, basePath, verb, q)
      {
        FoundSameShape(exposed, target, basePath, verb, p, q);
      }
    }
  }

  // Stored paths are canonical. A stored path below a base, however deep, is recognised as such iff the base path,
  // which is stored as it came, is canonical too; what is left is then the canonical rest.
  lemma StoredPathStripsIffBaseIsCanonical(basePath: Option<string>, x: string)
    requires NormalizedBase(basePath) != ""
    ensures var base := NormalizedBase(basePath);
            var stripped := StripBasePath(Canonicalize(base + "/" + x), basePath);
            && (stripped.Some? <==> Canonicalize(base) == base)
            && (stripped.Some? ==> stripped == Some("/" + Canonicalize(x)))
  {
    var base := NormalizedBase(basePath);
    CanonicalizeBelow(base, x);
    CanonicalizeKeepsSlashes(base);
    hide *;
    StripsOnlyAt(basePath, Canonicalize(base), Canonicalize(x));
  }

  lemma StripsOnlyAt(basePath: Option<string>, z: string, y: string)
    requires NormalizedBase(basePath) != "" && Slashes(NormalizedBase(basePath)) == Slashes(z)
    ensures var stripped := StripBasePath(z + "/" + y, basePath);
            && (stripped.Some? <==> z == NormalizedBase(basePath))
            && (stripped.Some? ==> stripped == Some("/" + y))
  {
    var base := NormalizedBase(basePath);
    hide Slashes, NormalizedBase;
    var p := z + "/" + y;
    var stripped := StripBasePath(p, basePath);
    assert p == z + ("/" + y);
    if stripped.Some? {
      SlashesPlaceTheBase(base, z, y);
    }
    if z == base {
      assert p[|base|] == '/' && base <= p;
      assert stripped.Some? && p == base + stripped.value;
      assert p[|base|..] == "/" + y == stripped.value;
    }
  }

  // The stored form of the base path itself is recognised under the same condition.
  lemma StoredBaseStripsIffCanonical(basePath: Option<string>)
    requires NormalizedBase(basePath) != ""
    ensures var base := NormalizedBase(basePath);
            StripBasePath(Canonicalize(base), basePath) == if Canonicalize(base) == base then Some("/") else None
  {
    var base := NormalizedBase(basePath);
    CanonicalizeKeepsSlashes(base);
    hide Canonicalize, NormalizedBase;
    var z := Canonicalize(base);
    if StripBasePath(z, basePath).Some? {
      if |z| > |base| {
        assert z == base + z[|base|..] && z[|base|] == '/';
        SlashesOfConcat(base, z[|base|..]);
      }
      assert z == base;
    }
  }

  lemma CanonicalizeBelow(base: string, x: string)
    ensures Canonicalize(base + "/" + x) == Canonicalize(base) + "/" + Canonicalize(x)
  {
    hide Canonicalize, Tokens, Spell, Shape;
    SlashBelow(x);
    TokensAcrossSlash(base, "/" + x);
    CanonicalizeSpellsShape(base + ("/" + x));
    CanonicalizeSpellsShape(base);
    CanonicalizeSpellsShape("/" + x);
    ShapeOfConcat(Tokens(base), Tokens("/" + x));
    SpellOfConcat(Shape(Tokens(base)), Shape(Tokens("/" + x)));
    Associates(base, "/", x);
    Associates(Canonicalize(base), "/", Canonicalize(x));
  }

  lemma SlashBelow(x: string)
    ensures Canonicalize("/" + x) == "/" + Canonicalize(x)
  {
    assert ("/" + x)[1..] == x;
  }
}
