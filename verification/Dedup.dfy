// The deduplicating migrations of worker/db/migrations: 004 (services by repository and name), 006
// (repositories by path, then services again) and 013 (connections by key).
module Dedup {
  import opened Common

  datatype Repo = Repo(path: string, details: string)
  datatype Service = Service(repo: nat, name: string, details: string)
  datatype Connection = Connection(source: nat, target: nat, protocol: string, verb: Option<string>,
                                   path: Option<string>, details: string)
  datatype Endpoint = Endpoint(service: nat, verb: Option<string>, path: string, details: string)
  datatype Schema = Schema(connection: nat, details: string)
  datatype RepoState = RepoState(repo: nat, details: string)

  datatype Store = Store(repos: map<nat, Repo>, services: map<nat, Service>, connections: map<nat, Connection>,
                         endpoints: map<nat, Endpoint>, schemas: map<nat, Schema>, repoStates: map<nat, RepoState>,
                         scanVersions: map<nat, nat>, indexed: bool)

  // The foreign keys. A scan version is the id of its repository.
  ghost predicate References(s: Store) {
    && (forall id :: id in s.services ==> s.services[id].repo in s.repos)
    && (forall id :: id in s.connections ==>
        s.connections[id].source in s.services && s.connections[id].target in s.services)
    && (forall id :: id in s.endpoints ==> s.endpoints[id].service in s.services)
    && (forall id :: id in s.schemas ==> s.schemas[id].connection in s.connections)
    && (forall id :: id in s.repoStates ==> s.repoStates[id].repo in s.repos)
    && (forall id :: id in s.scanVersions ==> s.scanVersions[id] in s.repos)
  }

  // ---------------------------------------------------------------- survivors

  lemma {:induction false} MaxExists(s: set<nat>)
    requires s != {}
    ensures exists m :: m in s && forall x :: x in s ==> x <= m
  {
    var x :| x in s;
    var rest := s - {x};
    if rest == {} {
      assert s == {x};
      assert x in s && forall y :: y in s ==> y <= x;
    } else {
      MaxExists(rest);
      var m :| m in rest && forall y :: y in rest ==> y <= m;
      var top := if x > m then x else m;
      assert top in s && forall y :: y in s ==> y <= top by {
        assert forall y :: y in s ==> y == x || y in rest;
      }
    }
  }

  function MaxOf(s: set<nat>): (m: nat)
    requires s != {}
    ensures m in s && forall x :: x in s ==> x <= m
  {
    MaxExists(s);
    var m :| m in s && forall x :: x in s ==> x <= m;
    m
  }

  function Same<K(==)>(keys: map<nat, K>, key: K): set<nat> {
    set x | x in keys && keys[x] == key
  }

  // The largest id that has the key of `id`.
  function Survivor<K(==)>(keys: map<nat, K>, id: nat): nat {
    if id in keys then
      assert id in Same(keys, keys[id]);
      MaxOf(Same(keys, keys[id]))
    else id
  }

  lemma SurvivorHasTheKey<K>(keys: map<nat, K>, id: nat)
    requires id in keys
    ensures var to := Survivor(keys, id);
            && to in keys && keys[to] == keys[id] && Survivor(keys, to) == to
            && (forall other :: other in keys && keys[other] == keys[id] ==> other <= to && Survivor(keys, other) == to)
  {
    assert id in Same(keys, keys[id]);
    var to := MaxOf(Same(keys, keys[id]));
    forall other | other in keys && keys[other] == keys[id] ensures other <= to && Survivor(keys, other) == to {
      assert other in Same(keys, keys[id]);
    }
  }

  // ---------------------------------------------------------------- merging services

  function ServiceKeys(services: map<nat, Service>): map<nat, (nat, string)> {
    map id | id in services :: (services[id].repo, services[id].name)
  }

  // The service that stays for service id.
  function HomeOf(services: map<nat, Service>, id: nat): nat {
    Survivor(ServiceKeys(services), id)
  }

  // UNIQUE(service_id, method, path): NULL methods are distinct.
  predicate Collide(a: Endpoint, b: Endpoint) {
    a.service == b.service && a.verb == b.verb && a.verb.Some? && a.path == b.path
  }

  ghost predicate UniqueEndpoints(endpoints: map<nat, Endpoint>) {
    forall a, b :: a in endpoints && b in endpoints && a != b ==> !Collide(endpoints[a], endpoints[b])
  }

  // One service per (repository, name), and everything that pointed to a duplicate points to it.
  function ServicesMerged(s: Store): Store {
    s.(services := map id | id in s.services && HomeOf(s.services, id) == id :: s.services[id],
       connections := map id | id in s.connections ::
         s.connections[id].(source := HomeOf(s.services, s.connections[id].source),
                            target := HomeOf(s.services, s.connections[id].target)),
       endpoints := map id | id in s.endpoints
           :: s.endpoints[id].(service := HomeOf(s.services, s.endpoints[id].service)))
  }

  // The merged services expose no (method, path) twice.
  ghost predicate CanMergeServices(s: Store) {
    UniqueEndpoints(ServicesMerged(s).endpoints)
  }

  ghost predicate UniqueServices(services: map<nat, Service>) {
    forall a, b ::
      a in services && b in services && services[a].repo == services[b].repo && services[a].name == services[b].name
      ==> a == b
  }

  lemma HomeIs(services: map<nat, Service>, id: nat)
    requires id in services
    ensures var to := HomeOf(services, id);
            && to in services && services[to].repo == services[id].repo && services[to].name == services[id].name
            && HomeOf(services, to) == to && id <= to
  {
    var keys := ServiceKeys(services);
    SurvivorHasTheKey(keys, id);
    assert keys[HomeOf(services, id)] == keys[id];
  }

  lemma SameHome(services: map<nat, Service>, a: nat, b: nat)
    requires a in services && b in services && services[a].repo == services[b].repo
             && services[a].name == services[b].name
    ensures HomeOf(services, a) == HomeOf(services, b)
  {
    SurvivorHasTheKey(ServiceKeys(services), a);
    assert ServiceKeys(services)[a] == ServiceKeys(services)[b];
  }

  lemma MergedServicesAreUnique(s: Store)
    requires References(s)
    ensures UniqueServices(ServicesMerged(s).services) && References(ServicesMerged(s))
  {
    hide HomeOf;
    var t := ServicesMerged(s);
    forall id | id in s.services ensures HomeOf(s.services, id) in t.services {
      HomeIs(s.services, id);
    }
    forall id | id in s.services ensures s.services[id].repo in s.repos {}
    assert forall id :: id in t.services ==> t.services[id].repo in t.repos;
    assert References(t);
    forall a, b | a in t.services && b in t.services && t.services[a].repo == t.services[b].repo
        && t.services[a].name == t.services[b].name
      ensures a == b
    {
      SameHome(s.services, a, b);
    }
  }

  // ---------------------------------------------------------------- names

  // A service by its repository's path and its own name.
  datatype Name = Name(repoPath: string, service: string)

  ghost function NameOf(s: Store, id: nat): Name
    requires References(s) && id in s.services
  {
    Name(s.repos[s.services[id].repo].path, s.services[id].name)
  }

  datatype Edge = Edge(source: Name, target: Name, protocol: string, verb: Option<string>, path: Option<string>,
                       details: string)

  ghost function EdgeOf(s: Store, id: nat): Edge
    requires References(s) && id in s.connections
  {
    var c := s.connections[id];
    Edge(NameOf(s, c.source), NameOf(s, c.target), c.protocol, c.verb, c.path, c.details)
  }

  // The edges by name, each with the id of its row.
  ghost function Edges(s: Store): map<nat, Edge>
    requires References(s)
  {
    map id | id in s.connections :: EdgeOf(s, id)
  }

  ghost function ExposureOf(s: Store, id: nat): (Name, Option<string>, string, string)
    requires References(s) && id in s.endpoints
  {
    var e := s.endpoints[id];
    (NameOf(s, e.service), e.verb, e.path, e.details)
  }

  ghost function Exposures(s: Store): map<nat, (Name, Option<string>, string, string)>
    requires References(s)
  {
    map id | id in s.endpoints :: ExposureOf(s, id)
  }

  ghost function ServiceNames(s: Store): set<Name>
    requires References(s)
  {
    set id | id in s.services :: NameOf(s, id)
  }

  ghost predicate SameGraph(s: Store, t: Store)
    requires References(s) && References(t)
  {
    Edges(s) == Edges(t) && Exposures(s) == Exposures(t) && ServiceNames(s) == ServiceNames(t) && s.schemas == t.schemas
  }

  lemma HomeKeepsName(s: Store, id: nat)
    requires References(s) && References(ServicesMerged(s)) && id in s.services
    ensures var to := HomeOf(s.services, id);
            to in ServicesMerged(s).services && NameOf(ServicesMerged(s), to) == NameOf(s, id)
  {
    hide HomeOf, References;
    HomeIs(s.services, id);
    assert References(s);
    RepoOf(s, id);
  }

  lemma RepoOf(s: Store, id: nat)
    requires References(s) && id in s.services
    ensures s.services[id].repo in s.repos
  {
  }

  // Migration 004 changes no edge and no exposure, by name, and loses no service name.
  lemma MergingServicesKeepsTheGraph(s: Store)
    requires References(s)
    ensures References(ServicesMerged(s)) && SameGraph(s, ServicesMerged(s))
  {
    hide References, Edges, Exposures, ServiceNames, HomeOf, UniqueServices;
    MergedServicesAreUnique(s);
    EdgesKept(s);
    ExposuresKept(s);
    SameServiceNames(s);
  }

  lemma EdgesKept(s: Store)
    requires References(s) && References(ServicesMerged(s))
    ensures Edges(ServicesMerged(s)) == Edges(s)
  {
    MergedKeepsRows(s);
    hide ServicesMerged, HomeOf, EdgeOf, References;
    forall id | id in s.connections ensures EdgeOf(ServicesMerged(s), id) == EdgeOf(s, id) {
      EdgeKept(s, id);
    }
  }

  lemma ExposuresKept(s: Store)
    requires References(s) && References(ServicesMerged(s))
    ensures Exposures(ServicesMerged(s)) == Exposures(s)
  {
    MergedKeepsRows(s);
    hide ServicesMerged, HomeOf, ExposureOf, References;
    forall id | id in s.endpoints ensures ExposureOf(ServicesMerged(s), id) == ExposureOf(s, id) {
      ExposureKept(s, id);
    }
  }

  lemma MergedKeepsRows(s: Store)
    ensures var t := ServicesMerged(s);
            t.connections.Keys == s.connections.Keys && t.endpoints.Keys == s.endpoints.Keys && t.schemas == s.schemas
  {
  }

  lemma EdgeKept(s: Store, id: nat)
    requires References(s) && References(ServicesMerged(s)) && id in s.connections
    ensures EdgeOf(ServicesMerged(s), id) == EdgeOf(s, id)
  {
    hide HomeOf, NameOf;
    HomeKeepsName(s, s.connections[id].source);
    HomeKeepsName(s, s.connections[id].target);
  }

  lemma ExposureKept(s: Store, id: nat)
    requires References(s) && References(ServicesMerged(s)) && id in s.endpoints
    ensures ExposureOf(ServicesMerged(s), id) == ExposureOf(s, id)
  {
    hide HomeOf, NameOf;
    HomeKeepsName(s, s.endpoints[id].service);
  }

  lemma SameServiceNames(s: Store)
    requires References(s) && References(ServicesMerged(s))
    ensures ServiceNames(s) == ServiceNames(ServicesMerged(s))
  {
    var t := ServicesMerged(s);
    hide HomeOf;
    forall id | id in s.services
      ensures HomeOf(s.services, id) in t.services && NameOf(t, HomeOf(s.services, id)) == NameOf(s, id)
    {
      HomeKeepsName(s, id);
    }
    hide References;
    hide NameOf;
    forall id | id in t.services ensures id in s.services && NameOf(t, id) == NameOf(s, id) {
    }
    forall id | id in s.services ensures NameOf(s, id) in ServiceNames(t) {
    }
    forall id | id in t.services ensures NameOf(t, id) in ServiceNames(s) {
    }
  }

  // ---------------------------------------------------------------- merging repositories

  function RepoKeys(repos: map<nat, Repo>): map<nat, string> {
    map id | id in repos :: repos[id].path
  }

  function RepoHome(repos: map<nat, Repo>, id: nat): nat {
    Survivor(RepoKeys(repos), id)
  }

  function ReposMerged(s: Store): Store {
    s.(repos := map id | id in s.repos && RepoHome(s.repos, id) == id :: s.repos[id],
       services := map id | id in s.services :: s.services[id].(repo := RepoHome(s.repos, s.services[id].repo)),
       repoStates := map id | id in s.repoStates
           && RepoHome(s.repos, s.repoStates[id].repo) == s.repoStates[id].repo :: s.repoStates[id])
  }

  // No scan version belongs to a repository that would go: scan versions are not re-pointed.
  ghost predicate CanMergeRepos(s: Store) {
    forall id :: id in s.scanVersions ==> RepoHome(s.repos, s.scanVersions[id]) == s.scanVersions[id]
  }

  ghost predicate UniquePaths(repos: map<nat, Repo>) {
    forall a, b :: a in repos && b in repos && repos[a].path == repos[b].path ==> a == b
  }

  lemma RepoHomeIs(repos: map<nat, Repo>, id: nat)
    requires id in repos
    ensures var to := RepoHome(repos, id);
            to in repos && repos[to].path == repos[id].path && RepoHome(repos, to) == to
  {
    var keys := RepoKeys(repos);
    SurvivorHasTheKey(keys, id);
    assert keys[RepoHome(repos, id)] == keys[id];
  }

  lemma SameRepoHome(repos: map<nat, Repo>, a: nat, b: nat)
    requires a in repos && b in repos && repos[a].path == repos[b].path
    ensures RepoHome(repos, a) == RepoHome(repos, b)
  {
    SurvivorHasTheKey(RepoKeys(repos), a);
    assert RepoKeys(repos)[a] == RepoKeys(repos)[b];
  }

  lemma MergedReposAreUnique(s: Store)
    requires References(s) && CanMergeRepos(s)
    ensures UniquePaths(ReposMerged(s).repos) && References(ReposMerged(s))
  {
    hide RepoHome;
    var t := ReposMerged(s);
    forall id | id in s.repos ensures RepoHome(s.repos, id) in t.repos {
      RepoHomeIs(s.repos, id);
    }
    assert References(t);
    forall a, b | a in t.repos && b in t.repos && t.repos[a].path == t.repos[b].path ensures a == b {
      SameRepoHome(s.repos, a, b);
    }
  }

  lemma MergedReposKeepNames(s: Store, id: nat)
    requires References(s) && References(ReposMerged(s)) && id in s.services
    ensures NameOf(ReposMerged(s), id) == NameOf(s, id)
  {
    hide RepoHome;
    RepoHomeIs(s.repos, s.services[id].repo);
  }

  lemma MergingReposKeepsTheGraph(s: Store)
    requires References(s) && CanMergeRepos(s)
    ensures References(ReposMerged(s)) && SameGraph(s, ReposMerged(s))
  {
    hide RepoHome;
    MergedReposAreUnique(s);
    var t := ReposMerged(s);
    assert t.services.Keys == s.services.Keys;
    forall id | id in s.services ensures NameOf(t, id) == NameOf(s, id) {
      MergedReposKeepNames(s, id);
    }
    SameRowsSameGraph(s, t);
  }

  lemma SameRowsSameGraph(s: Store, t: Store)
    requires References(s) && References(t) && t.services.Keys == s.services.Keys
    requires t.connections == s.connections && t.endpoints == s.endpoints && t.schemas == s.schemas
    requires forall id :: id in s.services ==> NameOf(t, id) == NameOf(s, id)
    ensures SameGraph(s, t)
  {
    hide NameOf;
    forall id | id in s.connections ensures EdgeOf(t, id) == EdgeOf(s, id) {}
    forall id | id in s.endpoints ensures ExposureOf(t, id) == ExposureOf(s, id) {}
    assert Edges(s) == Edges(t) && Exposures(s) == Exposures(t);
    assert ServiceNames(s) == ServiceNames(t);
  }

  // Migration 006.
  function Merged(s: Store): Store {
    ServicesMerged(ReposMerged(s))
  }

  // When migration 006 completes: repository paths are unique, service names are unique within each, nothing
  // dangles, and the graph by names is what it was.
  lemma MergeKeepsTheGraph(s: Store)
    requires References(s) && CanMergeRepos(s)
    ensures References(Merged(s)) && SameGraph(s, Merged(s))
    ensures UniquePaths(Merged(s).repos) && UniqueServices(Merged(s).services)
  {
    hide References, Edges, Exposures, ServiceNames, RepoHome, HomeOf, UniquePaths, UniqueServices, CanMergeRepos;
    MergingReposKeepsTheGraph(s);
    MergedReposAreUnique(s);
    MergingServicesKeepsTheGraph(ReposMerged(s));
    MergedServicesAreUnique(ReposMerged(s));
  }

  // ---------------------------------------------------------------- both migrations together

  ghost predicate IsNewest(s: Store, id: nat)
    requires References(s)
  {
    id in s.services && forall other :: other in s.services && NameOf(s, other) == NameOf(s, id) ==> other <= id
  }

  lemma MergedServicesAreNewest(s: Store)
    requires References(s) && UniquePaths(s.repos)
    ensures forall id :: id in ServicesMerged(s).services <==> IsNewest(s, id)
  {
    hide HomeOf;
    forall id ensures id in ServicesMerged(s).services <==> IsNewest(s, id) {
      if id in s.services {
        HomeIs(s.services, id);
        assert NameOf(s, HomeOf(s.services, id)) == NameOf(s, id);
        if HomeOf(s.services, id) == id {
          forall other | other in s.services && NameOf(s, other) == NameOf(s, id) ensures other <= id {
            SameHome(s.services, id, other);
            HomeIs(s.services, other);
          }
        }
      }
    }
  }

  // Dropping only services that are not the newest of their name does not change which are.
  lemma FewerNewest(s: Store, t: Store)
    requires References(s) && References(t) && t.services.Keys <= s.services.Keys
    requires forall id :: id in t.services ==> NameOf(t, id) == NameOf(s, id)
    requires forall id :: IsNewest(s, id) ==> id in t.services
    ensures forall id :: IsNewest(t, id) <==> IsNewest(s, id)
  {
    hide References, NameOf;
    forall id | IsNewest(t, id) ensures IsNewest(s, id) {
      NewestExists(s, id);
      var top :| IsNewest(s, top) && NameOf(s, top) == NameOf(s, id);
      assert NameOf(t, top) == NameOf(t, id);
    }
  }

  lemma NewestExists(s: Store, id: nat)
    requires References(s) && id in s.services
    ensures exists top :: IsNewest(s, top) && NameOf(s, top) == NameOf(s, id)
  {
    hide References, NameOf;
    var same := set x | x in s.services && NameOf(s, x) == NameOf(s, id);
    assert id in same;
    var top := MaxOf(same);
    forall other | other in s.services && NameOf(s, other) == NameOf(s, top) ensures other <= top {
      assert other in same;
    }
    assert IsNewest(s, top);
  }

  lemma NewestSurviveServiceMerge(s: Store)
    requires References(s)
    ensures References(ServicesMerged(s))
    ensures forall id :: IsNewest(ServicesMerged(s), id) <==> IsNewest(s, id)
  {
    hide HomeOf;
    MergedServicesAreUnique(s);
    var t := ServicesMerged(s);
    forall id | id in t.services ensures NameOf(t, id) == NameOf(s, id) {
      HomeKeepsName(s, id);
    }
    forall id | IsNewest(s, id) ensures id in t.services {
      HomeIs(s.services, id);
      assert NameOf(s, HomeOf(s.services, id)) == NameOf(s, id);
    }
    FewerNewest(s, t);
  }

  // 004 and then 006 keep, of all services with the same repository path and name, the one with the largest
  // id, though neither compares them all at once.
  lemma BothKeepTheNewest(s: Store)
    requires References(s) && CanMergeRepos(ServicesMerged(s))
    ensures forall id :: id in Merged(ServicesMerged(s)).services <==> IsNewest(s, id)
  {
    hide HomeOf, RepoHome, References, CanMergeRepos, UniquePaths;
    NewestSurviveServiceMerge(s);
    var t := ServicesMerged(s);
    MergedReposAreUnique(t);
    var u := ReposMerged(t);
    forall id | id in t.services ensures NameOf(u, id) == NameOf(t, id) {
      MergedReposKeepNames(t, id);
    }
    hide NameOf;
    assert forall id :: IsNewest(t, id) ==> id in u.services;
    FewerNewest(t, u);
    MergedServicesAreNewest(u);
  }

  // ---------------------------------------------------------------- what each migration leaves, row by row

  // No other repository of its path has a larger id.
  ghost predicate LastOfPath(repos: map<nat, Repo>, id: nat) {
    id in repos && forall other :: other in repos && repos[other].path == repos[id].path ==> other <= id
  }

  // No other service of its repository and name has a larger id.
  ghost predicate LastOfName(services: map<nat, Service>, id: nat) {
    id in services
    && forall other | other in services && services[other].repo == services[id].repo
                      && services[other].name == services[id].name
         :: other <= id
  }

  // Of the services, the last of every repository and name are left, as they were; and but for what connections and
  // endpoints refer to, nothing else changes.
  ghost predicate LeftBy004(s: Store, t: Store) {
    && t == s.(services := t.services, connections := t.connections, endpoints := t.endpoints)
    && (forall id :: id in t.services <==> LastOfName(s.services, id))
    && (forall id :: id in t.services ==> t.services[id] == s.services[id])
    && t.connections.Keys == s.connections.Keys && t.endpoints.Keys == s.endpoints.Keys
  }

  // Of the repositories and their states, the last of every path are left, as they were; of the services, the last of
  // every path and name, which is in the repository left of its path and otherwise as it was; scan versions and schemas
  // do not change.
  ghost predicate LeftBy006(s: Store, t: Store)
    requires References(s)
  {
    && t == s.(repos := t.repos, repoStates := t.repoStates, services := t.services, connections := t.connections,
               endpoints := t.endpoints)
    && (forall id :: id in t.repos <==> LastOfPath(s.repos, id))
    && (forall id :: id in t.repos ==> t.repos[id] == s.repos[id])
    && (forall id :: id in t.repoStates <==> id in s.repoStates && LastOfPath(s.repos, s.repoStates[id].repo))
    && (forall id :: id in t.repoStates ==> t.repoStates[id] == s.repoStates[id])
    && (forall id :: id in t.services <==> IsNewest(s, id))
    && (forall id :: id in t.services ==> MovedHome(s, t, id))
    && t.connections.Keys == s.connections.Keys && t.endpoints.Keys == s.endpoints.Keys
  }

  ghost predicate MovedHome(s: Store, t: Store, id: nat)
    requires References(s) && id in s.services && id in t.services
  {
    var row := t.services[id];
    && row.name == s.services[id].name && row.details == s.services[id].details
    && row.repo in t.repos && t.repos[row.repo].path == s.repos[s.services[id].repo].path
  }

  lemma HomeIsLast(services: map<nat, Service>, id: nat)
    requires id in services
    ensures HomeOf(services, id) == id <==> LastOfName(services, id)
  {
    hide HomeOf;
    HomeIs(services, id);
    forall other | other in services && services[other].repo == services[id].repo
                   && services[other].name == services[id].name
      ensures other <= HomeOf(services, id)
    {
      SameHome(services, id, other);
      HomeIs(services, other);
    }
  }

  lemma RepoHomeIsLast(repos: map<nat, Repo>, id: nat)
    requires id in repos
    ensures RepoHome(repos, id) == id <==> LastOfPath(repos, id)
  {
    var keys := RepoKeys(repos);
    SurvivorHasTheKey(keys, id);
    assert keys[RepoHome(repos, id)] == keys[id];
    forall other | other in repos && repos[other].path == repos[id].path ensures other <= RepoHome(repos, id) {
      assert keys[other] == keys[id];
    }
    hide RepoHome;
  }

  lemma WhatIsLeftBy004(s: Store)
    ensures LeftBy004(s, ServicesMerged(s))
  {
    hide HomeOf;
    forall id | id in s.services ensures HomeOf(s.services, id) == id <==> LastOfName(s.services, id) {
      HomeIsLast(s.services, id);
    }
  }

  lemma MovesHome(s: Store, id: nat)
    requires References(s) && References(ReposMerged(s)) && id in s.services && id in Merged(s).services
    requires Merged(s).services[id] == ReposMerged(s).services[id] && Merged(s).repos == ReposMerged(s).repos
    ensures MovedHome(s, Merged(s), id)
  {
    MergedReposKeepNames(s, id);
    RepoOf(ReposMerged(s), id);
    hide References, RepoHome, Merged;
  }

  lemma WhatIsLeftBy006(s: Store)
    requires References(s) && CanMergeRepos(s)
    ensures References(Merged(s)) && LeftBy006(s, Merged(s))
  {
    hide HomeOf, RepoHome, References, CanMergeRepos, UniquePaths, UniqueServices, SameGraph, LastOfName, LastOfPath,
         ReposMerged, ServicesMerged, MovedHome, IsNewest;
    MergedReposAreUnique(s);
    MergeKeepsTheGraph(s);
    RepoRowsLeft(s);
    WhatIsLeftBy004(ReposMerged(s));
    NewestLeft(s);
    NewestAreServices(s);
    forall id | id in Merged(s).services ensures MovedHome(s, Merged(s), id) {
      MovesHome(s, id);
    }
  }

  lemma NewestAreServices(s: Store)
    requires References(s)
    ensures forall id :: IsNewest(s, id) ==> id in s.services
  {
  }

  // The repositories and their states after the first half of 006.
  lemma RepoRowsLeft(s: Store)
    requires References(s)
    ensures var t := ReposMerged(s);
            && t == s.(repos := t.repos, repoStates := t.repoStates, services := t.services)
            && (forall id :: id in t.repos <==> LastOfPath(s.repos, id))
            && (forall id :: id in t.repos ==> t.repos[id] == s.repos[id])
            && (forall id :: id in t.repoStates <==> id in s.repoStates && LastOfPath(s.repos, s.repoStates[id].repo))
            && (forall id :: id in t.repoStates ==> t.repoStates[id] == s.repoStates[id])
            && t.services.Keys == s.services.Keys
            && (forall id :: id in t.services ==> t.services[id].name == s.services[id].name
                                                  && t.services[id].details == s.services[id].details)
  {
    assert forall id :: id in s.repoStates ==> s.repoStates[id].repo in s.repos;
    hide RepoHome, LastOfPath, References;
    forall id | id in s.repos ensures RepoHome(s.repos, id) == id <==> LastOfPath(s.repos, id) {
      RepoHomeIsLast(s.repos, id);
    }
    LastIsARepo(s.repos);
  }

  lemma LastIsARepo(repos: map<nat, Repo>)
    ensures forall id :: LastOfPath(repos, id) ==> id in repos
  {
  }

  lemma NewestLeft(s: Store)
    requires References(s) && CanMergeRepos(s)
    ensures forall id :: id in Merged(s).services <==> IsNewest(s, id)
  {
    hide HomeOf, RepoHome, References, CanMergeRepos, UniquePaths;
    MergedReposAreUnique(s);
    var t := ReposMerged(s);
    forall id | id in s.services ensures NameOf(t, id) == NameOf(s, id) {
      MergedReposKeepNames(s, id);
    }
    hide NameOf;
    assert t.services.Keys == s.services.Keys;
    FewerNewest(s, t);
    MergedServicesAreNewest(t);
  }

  // ---------------------------------------------------------------- when a migration completes, in rows

  // The two expose one method and path, at services of one repository path and name.
  ghost predicate SameExposure(s: Store, a: nat, b: nat)
    requires References(s) && a in s.endpoints && b in s.endpoints
  {
    && NameOf(s, s.endpoints[a].service) == NameOf(s, s.endpoints[b].service)
    && s.endpoints[a].verb.Some? && s.endpoints[a].verb == s.endpoints[b].verb
    && s.endpoints[a].path == s.endpoints[b].path
  }

  // Two services are merged when they have one repository and name.
  lemma SameHomeIff(services: map<nat, Service>, a: nat, b: nat)
    requires a in services && b in services
    ensures HomeOf(services, a) == HomeOf(services, b)
            <==> services[a].repo == services[b].repo && services[a].name == services[b].name
  {
    hide HomeOf;
    HomeIs(services, a);
    HomeIs(services, b);
    if services[a].repo == services[b].repo && services[a].name == services[b].name {
      SameHome(services, a, b);
    }
  }

  lemma SameNameIff(s: Store, a: nat, b: nat)
    requires References(s) && UniquePaths(s.repos) && a in s.services && b in s.services
    ensures NameOf(s, a) == NameOf(s, b)
            <==> s.services[a].repo == s.services[b].repo && s.services[a].name == s.services[b].name
  {
  }

  // The two expose one method and path, at services of one repository id and name.
  ghost predicate WillCollide(s: Store, a: nat, b: nat)
    requires References(s) && a in s.endpoints && b in s.endpoints
  {
    var e, f := s.endpoints[a], s.endpoints[b];
    && s.services[e.service].repo == s.services[f.service].repo
    && s.services[e.service].name == s.services[f.service].name
    && e.verb.Some? && e.verb == f.verb && e.path == f.path
  }

  lemma CollidesIff(s: Store, a: nat, b: nat)
    requires References(s) && a in s.endpoints && b in s.endpoints
    ensures var t := ServicesMerged(s).endpoints;
            a in t && b in t && (Collide(t[a], t[b]) <==> WillCollide(s, a, b))
  {
    hide HomeOf;
    SameHomeIff(s.services, s.endpoints[a].service, s.endpoints[b].service);
  }

  // 004 completes exactly if no two endpoints of one repository id and service name have one method and path.
  lemma CanMergeServicesIff(s: Store)
    requires References(s)
    ensures CanMergeServices(s)
            <==> forall a, b :: a in s.endpoints && b in s.endpoints && a != b ==> !WillCollide(s, a, b)
  {
    assert ServicesMerged(s).endpoints.Keys == s.endpoints.Keys;
    hide ServicesMerged, Collide, WillCollide, References;
    forall a, b | a in s.endpoints && b in s.endpoints
      ensures var t := ServicesMerged(s).endpoints; Collide(t[a], t[b]) <==> WillCollide(s, a, b)
    {
      CollidesIff(s, a, b);
    }
  }

  lemma CanMergeReposIff(s: Store)
    requires References(s)
    ensures CanMergeRepos(s) <==> forall id :: id in s.scanVersions ==> LastOfPath(s.repos, s.scanVersions[id])
  {
    assert forall id :: id in s.scanVersions ==> s.scanVersions[id] in s.repos;
    hide RepoHome, LastOfPath, References;
    forall id | id in s.repos ensures RepoHome(s.repos, id) == id <==> LastOfPath(s.repos, id) {
      RepoHomeIsLast(s.repos, id);
    }
  }

  lemma SameExposureIff(s: Store, a: nat, b: nat)
    requires References(s) && CanMergeRepos(s) && References(ReposMerged(s)) && a in s.endpoints && b in s.endpoints
    ensures WillCollide(ReposMerged(s), a, b) <==> SameExposure(s, a, b)
  {
    var t := ReposMerged(s);
    var x, y := s.endpoints[a].service, s.endpoints[b].service;
    MergedReposAreUnique(s);
    MergedReposKeepNames(s, x);
    MergedReposKeepNames(s, y);
    SameNameIff(t, x, y);
    hide RepoHome, NameOf, UniquePaths;
  }

  // Once the scan versions let 006 pass, it completes exactly if no two endpoints are the same exposure.
  lemma CanMergeBothIff(s: Store)
    requires References(s) && CanMergeRepos(s)
    ensures CanMergeServices(ReposMerged(s))
            <==> forall a, b :: a in s.endpoints && b in s.endpoints && a != b ==> !SameExposure(s, a, b)
  {
    hide References, RepoHome, CanMergeRepos, CanMergeServices, UniquePaths, WillCollide, SameExposure;
    var t := ReposMerged(s);
    MergedReposAreUnique(s);
    CanMergeServicesIff(t);
    forall a, b | a in s.endpoints && b in s.endpoints ensures WillCollide(t, a, b) <==> SameExposure(s, a, b) {
      SameExposureIff(s, a, b);
    }
  }

  // ---------------------------------------------------------------- merging connections

  function IfNull(s: Option<string>): string {
    s.GetOr("")
  }

  type Key = (nat, nat, string, string, string)

  function KeyOf(c: Connection): Key {
    (c.source, c.target, c.protocol, IfNull(c.verb), IfNull(c.path))
  }

  ghost predicate SameOrEmpty(a: Option<string>, b: Option<string>) {
    a == b || (a in {None, Some("")} && b in {None, Some("")})
  }

  // Two connections have one key when their ends and protocols agree, and their methods and paths, NULL being "".
  lemma SameKeyIff(a: Connection, b: Connection)
    ensures KeyOf(a) == KeyOf(b)
            <==> a.source == b.source && a.target == b.target && a.protocol == b.protocol
                 && SameOrEmpty(a.verb, b.verb) && SameOrEmpty(a.path, b.path)
  {
  }

  function ConnectionKeys(connections: map<nat, Connection>): map<nat, Key> {
    map id | id in connections :: KeyOf(connections[id])
  }

  function ConnectionHome(connections: map<nat, Connection>, id: nat): nat {
    Survivor(ConnectionKeys(connections), id)
  }

  // Migration 013, which does nothing when the index is there.
  function ConnectionsMerged(s: Store): Store {
    if s.indexed then s
    else s.(connections := map id | id in s.connections && ConnectionHome(s.connections, id) == id :: s.connections[id],
            schemas := map id | id in s.schemas
                :: s.schemas[id].(connection := ConnectionHome(s.connections, s.schemas[id].connection)),
            indexed := true)
  }

  lemma ConnectionHomeIs(connections: map<nat, Connection>, id: nat)
    requires id in connections
    ensures var to := ConnectionHome(connections, id);
            && to in connections && KeyOf(connections[to]) == KeyOf(connections[id])
            && ConnectionHome(connections, to) == to
            && (forall other :: other in connections && KeyOf(connections[other]) == KeyOf(connections[id]) ==>
                other <= to)
  {
    hide KeyOf;
    var keys := ConnectionKeys(connections);
    SurvivorHasTheKey(keys, id);
    assert keys[ConnectionHome(connections, id)] == keys[id];
    assert forall other :: other in connections ==> keys[other] == KeyOf(connections[other]);
  }

  ghost predicate LastOfItsKey(connections: map<nat, Connection>, id: nat) {
    id in connections && forall other :: other in connections && KeyOf(connections[other]) == KeyOf(connections[id]) ==>
        other <= id
  }

  // What is left is, for every key, the row with the largest id, unchanged.
  lemma OneConnectionPerKey(s: Store)
    requires !s.indexed
    ensures forall id :: id in ConnectionsMerged(s).connections <==> LastOfItsKey(s.connections, id)
    ensures forall id :: id in ConnectionsMerged(s).connections ==>
            ConnectionsMerged(s).connections[id] == s.connections[id]
  {
    hide KeyOf, ConnectionHome;
    forall id ensures id in ConnectionsMerged(s).connections <==> LastOfItsKey(s.connections, id) {
      if id in s.connections {
        ConnectionHomeIs(s.connections, id);
        ConnectionHomeBounds(s.connections, id);
      }
    }
  }

  lemma ConnectionHomeBounds(connections: map<nat, Connection>, id: nat)
    requires id in connections
    ensures id <= ConnectionHome(connections, id)
  {
    ConnectionHomeIs(connections, id);
  }

  // Each schema stays with a connection of the key it had, and nothing dangles.
  lemma SchemasKeepTheirKey(s: Store)
    requires References(s)
    ensures var t := ConnectionsMerged(s);
            && References(t) && t.schemas.Keys == s.schemas.Keys
            && (forall id :: id in s.schemas ==>
                  KeyOf(t.connections[t.schemas[id].connection]) == KeyOf(s.connections[s.schemas[id].connection])
                  && t.schemas[id].details == s.schemas[id].details)
  {
    hide KeyOf, ConnectionHome;
    var t := ConnectionsMerged(s);
    if !s.indexed {
      forall id | id in s.connections ensures ConnectionHome(s.connections, id) in t.connections
        && KeyOf(t.connections[ConnectionHome(s.connections, id)]) == KeyOf(s.connections[id])
      {
        ConnectionHomeIs(s.connections, id);
      }
    }
  }

  lemma EveryKeyIsLeft(s: Store, id: nat)
    requires id in s.connections
    ensures exists kept ::
              kept in ConnectionsMerged(s).connections && KeyOf(s.connections[kept]) == KeyOf(s.connections[id])
  {
    hide KeyOf, ConnectionHome;
    if !s.indexed {
      ConnectionHomeIs(s.connections, id);
      assert ConnectionHome(s.connections, id) in ConnectionsMerged(s).connections;
    }
  }

  // 013 leaves the last connection of every key, as it was, and every schema on the one left of its connection's key.
  // Nothing else changes, and where the index is there nothing at all.
  ghost predicate LeftBy013(s: Store, t: Store)
    requires References(s)
  {
    && t == s.(connections := t.connections, schemas := t.schemas, indexed := true)
    && (s.indexed ==> t == s)
    && (!s.indexed ==>
          && (forall id :: id in t.connections <==> LastOfItsKey(s.connections, id))
          && (forall id :: id in t.connections ==> t.connections[id] == s.connections[id]))
    && t.schemas.Keys == s.schemas.Keys
    && (forall id :: id in t.schemas ==> MovedToItsKey(s, t, id))
  }

  ghost predicate MovedToItsKey(s: Store, t: Store, id: nat)
    requires References(s) && id in s.schemas && id in t.schemas
  {
    var row := t.schemas[id];
    && row.details == s.schemas[id].details && row.connection in t.connections
    && KeyOf(t.connections[row.connection]) == KeyOf(s.connections[s.schemas[id].connection])
  }

  lemma WhatIsLeftBy013(s: Store)
    requires References(s)
    ensures LeftBy013(s, ConnectionsMerged(s))
  {
    hide KeyOf, ConnectionHome, LastOfItsKey;
    var t := ConnectionsMerged(s);
    assert t == s.(connections := t.connections, schemas := t.schemas, indexed := true) && (s.indexed ==> t == s);
    hide ConnectionsMerged;
    SchemasKeepTheirKey(s);
    if !s.indexed {
      OneConnectionPerKey(s);
    }
  }

  // ---------------------------------------------------------------- the statements

  class Database {
    var repos: map<nat, Repo>
    var services: map<nat, Service>
    var connections: map<nat, Connection>
    var endpoints: map<nat, Endpoint>
    var schemas: map<nat, Schema>
    var repoStates: map<nat, RepoState>
    var scanVersions: map<nat, nat>
    var indexed: bool

    function View(): Store
      reads this
    {
      Store(repos, services, connections, endpoints, schemas, repoStates, scanVersions, indexed)
    }

    method Restore(s: Store)
      modifies this
      ensures View() == s
    {
      repos, services, connections, endpoints := s.repos, s.services, s.connections, s.endpoints;
      schemas, repoStates, scanVersions, indexed := s.schemas, s.repoStates, s.scanVersions, s.indexed;
    }

    // UPDATE exposed_endpoints, row by row in some order; a row that meets its like stops it.
    method RepointEndpoints(remap: map<nat, nat>) returns (ok: bool)
      requires UniqueEndpoints(endpoints) && forall id :: id in remap ==> Repoint(remap, remap[id]) == remap[id]
      modifies this`endpoints
      ensures ok <==> UniqueEndpoints(Repointed(old(endpoints), remap))
      ensures ok ==> endpoints == Repointed(old(endpoints), remap)
    {
      ghost var start, goal := endpoints, Repointed(endpoints, remap);
      RepointedRows(start, remap);
      hide Collide, UniqueEndpoints, Repoint, Repointed;
      var todo := set id | id in endpoints && Repoint(remap, endpoints[id].service) != endpoints[id].service;
      while todo != {}
        invariant endpoints.Keys == start.Keys == goal.Keys && todo <= start.Keys
        invariant forall id :: id in start ==> endpoints[id] == if id in todo then start[id] else goal[id]
        invariant forall id :: id in todo ==> start[id] != goal[id]
        invariant UniqueEndpoints(endpoints)
        decreases todo
      {
        var id :| id in todo;
        var row := endpoints[id].(service := Repoint(remap, endpoints[id].service));
        assert row == goal[id];
        if exists other :: other in endpoints && other != id && Collide(row, endpoints[other]) {
          ghost var other :| other in endpoints && other != id && Collide(row, endpoints[other]);
          CollidesAtHome(start, remap, id, other, endpoints[other]);
          return false;
        }
        UniqueAfter(endpoints, id, row);
        endpoints := endpoints[id := row];
        todo := todo - {id};
      }
      assert endpoints == goal;
      return true;
    }

    // The statements 004 and 006 share. What they leave violates no foreign key (MergedServicesAreUnique).
    method DedupServices() returns (ok: bool)
      requires References(View()) && UniqueEndpoints(endpoints)
      modifies this
      ensures ok <==> CanMergeServices(old(View()))
      ensures ok ==> View() == ServicesMerged(old(View()))
    {
      hide HomeOf, RemapTable, Repoint, UniqueEndpoints, References, ServicesMerged, SourcesAt, TargetsAt, Repointed,
           KeptAt, UniqueServices;
      ghost var before := View();
      var remap := RemapTable(ServiceKeys(services));
      RemapIsHome(services);
      DedupInSteps(before, remap);
      connections := SourcesAt(connections, remap);
      connections := TargetsAt(connections, remap);
      ok := RepointEndpoints(remap);
      if !ok { return; }
      services := KeptAt(services, remap);
    }

    // Migration 004 in its transaction.
    method Up004() returns (r: Outcome<()>)
      requires References(View()) && UniqueEndpoints(endpoints)
      modifies this
      ensures r.Done? <==> CanMergeServices(old(View()))
      ensures View() == if r.Done? then ServicesMerged(old(View())) else old(View())
      ensures References(View()) && UniqueEndpoints(endpoints) && (r.Done? ==> UniqueServices(services))
      ensures SameGraph(old(View()), View())
      ensures r.Done? ==> LeftBy004(old(View()), View())
    {
      hide References, SameGraph, UniqueServices, UniqueEndpoints, LeftBy004;
      var begin := View();
      WhatIsLeftBy004(begin);
      var ok := DedupServices();
      MergedServicesAreUnique(begin);
      MergingServicesKeepsTheGraph(begin);
      if !ok {
        Restore(begin);
        GraphIsItself(begin);
        return Thrown;
      }
      return Done(());
    }

    // DELETE FROM repos under its foreign keys
    method DeleteRepos(gone: set<nat>) returns (ok: bool)
      modifies this`repos
      ensures ok
              <==> ServicesAvoid(services, gone) && StatesAvoid(repoStates, gone) && VersionsAvoid(scanVersions, gone)
      ensures repos == if ok then old(repos) - gone else old(repos)
    {
      if !ServicesAvoid(services, gone) || !StatesAvoid(repoStates, gone) || !VersionsAvoid(scanVersions, gone) {
        return false;
      }
      repos := repos - gone;
      return true;
    }

    // The first half of migration 006.
    method MergeRepos() returns (ok: bool)
      requires References(View())
      modifies this
      ensures ok <==> CanMergeRepos(old(View()))
      ensures ok ==> View() == ReposMerged(old(View()))
      ensures endpoints == old(endpoints)
    {
      ghost var before := View();
      var remap := RemapTable(RepoKeys(repos));
      RemapIsRepoHome(repos);
      MergeInSteps(before, remap);
      GoneAfter(before, remap);
      hide ServicesAvoid, StatesAvoid, VersionsAvoid, RepoHome, RemapTable, Repoint, CanMergeRepos, References,
           ReposMerged, ReposAt, StatesAt, KeptAt;
      services := ReposAt(services, remap);
      repoStates := StatesAt(repoStates, remap);
      ok := DeleteRepos(repos.Keys - KeptAt(repos, remap).Keys);
    }

    // Migration 006 in its transaction.
    method Up006() returns (r: Outcome<()>)
      requires References(View()) && UniqueEndpoints(endpoints)
      modifies this
      ensures r.Done? <==> CanMergeRepos(old(View())) && CanMergeServices(ReposMerged(old(View())))
      ensures View() == if r.Done? then Merged(old(View())) else old(View())
      ensures References(View()) && UniqueEndpoints(endpoints)
      ensures r.Done? ==> UniqueServices(services) && UniquePaths(repos)
      ensures SameGraph(old(View()), View())
      ensures r.Done? ==> LeftBy006(old(View()), View())
    {
      hide References, SameGraph, UniqueServices, UniqueEndpoints, UniquePaths, CanMergeRepos, RepoHome, HomeOf,
           LeftBy006;
      var begin := View();
      var ok := MergeRepos();
      if ok {
        MergedReposAreUnique(begin);
        MergeKeepsTheGraph(begin);
        WhatIsLeftBy006(begin);
        ok := DedupServices();
      }
      if !ok {
        Restore(begin);
        GraphIsItself(begin);
        return Thrown;
      }
      return Done(());
    }

    // Migration 013
    method Up013()
      requires References(View())
      modifies this`connections, this`schemas, this`indexed
      ensures indexed && View() == ConnectionsMerged(old(View())) && References(View())
      ensures LeftBy013(old(View()), View())
    {
      hide LeftBy013;
      ghost var begin := View();
      SchemasKeepTheirKey(begin);
      WhatIsLeftBy013(begin);
      if !indexed {
        var remap := RemapTable(ConnectionKeys(connections));
        RemapIsConnectionHome(connections);
        ConnectionsInSteps(begin, remap);
        hide References, RemapTable, Repoint, ConnectionHome, SchemasAt, KeptAt;
        schemas := SchemasAt(schemas, remap);
        connections := KeptAt(connections, remap);
        indexed := true;
      }
    }
  }

  // CREATE TEMP TABLE ... AS SELECT id, MAX(id of the same key)
  function RemapTable<K(==)>(keys: map<nat, K>): map<nat, nat> {
    map id | id in keys :: Survivor(keys, id)
  }

  // What an UPDATE ... WHERE old_id != new_id makes of a reference.
  function Repoint(remap: map<nat, nat>, id: nat): nat {
    if id in remap && remap[id] != id then remap[id] else id
  }

  function Repointed(endpoints: map<nat, Endpoint>, remap: map<nat, nat>): map<nat, Endpoint> {
    map id | id in endpoints :: endpoints[id].(service := Repoint(remap, endpoints[id].service))
  }

  function SourcesAt(connections: map<nat, Connection>, remap: map<nat, nat>): map<nat, Connection> {
    map id | id in connections :: connections[id].(source := Repoint(remap, connections[id].source))
  }

  function TargetsAt(connections: map<nat, Connection>, remap: map<nat, nat>): map<nat, Connection> {
    map id | id in connections :: connections[id].(target := Repoint(remap, connections[id].target))
  }

  function SchemasAt(schemas: map<nat, Schema>, remap: map<nat, nat>): map<nat, Schema> {
    map id | id in schemas :: schemas[id].(connection := Repoint(remap, schemas[id].connection))
  }

  function ReposAt(services: map<nat, Service>, remap: map<nat, nat>): map<nat, Service> {
    map id | id in services :: services[id].(repo := Repoint(remap, services[id].repo))
  }

  // DELETE FROM repo_state WHERE repo_id is one that changes
  function StatesAt(states: map<nat, RepoState>, remap: map<nat, nat>): map<nat, RepoState> {
    map id | id in states && Repoint(remap, states[id].repo) == states[id].repo :: states[id]
  }

  // What a DELETE of the ids that change leaves.
  function KeptAt<V>(table: map<nat, V>, remap: map<nat, nat>): map<nat, V> {
    map id | id in table && Repoint(remap, id) == id :: table[id]
  }

  lemma ConnectionsInTwoSteps(s: Store, remap: map<nat, nat>)
    requires forall id :: Repoint(remap, id) == HomeOf(s.services, id)
    ensures TargetsAt(SourcesAt(s.connections, remap), remap) == ServicesMerged(s).connections
  {
    hide HomeOf, Repoint;
  }

  lemma DedupInSteps(s: Store, remap: map<nat, nat>)
    requires forall id :: Repoint(remap, id) == HomeOf(s.services, id)
    ensures TargetsAt(SourcesAt(s.connections, remap), remap) == ServicesMerged(s).connections
    ensures Repointed(s.endpoints, remap) == ServicesMerged(s).endpoints
    ensures s.(services := KeptAt(s.services, remap), connections := TargetsAt(SourcesAt(s.connections, remap), remap),
               endpoints := Repointed(s.endpoints, remap)) == ServicesMerged(s)
  {
    hide HomeOf, Repoint;
    assert KeptAt(s.services, remap) == ServicesMerged(s).services;
    assert Repointed(s.endpoints, remap) == ServicesMerged(s).endpoints;
    ConnectionsInTwoSteps(s, remap);
  }

  predicate ServicesAvoid(services: map<nat, Service>, gone: set<nat>) {
    forall id :: id in services ==> services[id].repo !in gone
  }

  predicate StatesAvoid(states: map<nat, RepoState>, gone: set<nat>) {
    forall id :: id in states ==> states[id].repo !in gone
  }

  predicate VersionsAvoid(versions: map<nat, nat>, gone: set<nat>) {
    forall id :: id in versions ==> versions[id] !in gone
  }

  lemma MergeInSteps(s: Store, remap: map<nat, nat>)
    requires forall id :: Repoint(remap, id) == RepoHome(s.repos, id)
    ensures s.(repos := s.repos - (s.repos.Keys - KeptAt(s.repos, remap).Keys), services := ReposAt(s.services, remap),
               repoStates := StatesAt(s.repoStates, remap)) == ReposMerged(s)
  {
    hide RepoHome, Repoint;
    assert s.repos - (s.repos.Keys - KeptAt(s.repos, remap).Keys) == ReposMerged(s).repos;
    assert ReposAt(s.services, remap) == ReposMerged(s).services;
    assert StatesAt(s.repoStates, remap) == ReposMerged(s).repoStates;
  }

  lemma GoneAfter(s: Store, remap: map<nat, nat>)
    requires References(s) && forall id :: Repoint(remap, id) == RepoHome(s.repos, id)
    ensures var gone := s.repos.Keys - KeptAt(s.repos, remap).Keys;
            && ServicesAvoid(ReposAt(s.services, remap), gone) && StatesAvoid(StatesAt(s.repoStates, remap), gone)
            && (CanMergeRepos(s) <==> VersionsAvoid(s.scanVersions, gone))
  {
    hide RepoHome, Repoint;
    forall id | id in s.repos ensures RepoHome(s.repos, RepoHome(s.repos, id)) == RepoHome(s.repos, id) {
      RepoHomeIs(s.repos, id);
    }
  }

  lemma ConnectionsInSteps(s: Store, remap: map<nat, nat>)
    requires !s.indexed && forall id :: Repoint(remap, id) == ConnectionHome(s.connections, id)
    ensures s.(schemas := SchemasAt(s.schemas, remap), connections := KeptAt(s.connections, remap), indexed := true)
            == ConnectionsMerged(s)
  {
    hide ConnectionHome, Repoint;
    assert SchemasAt(s.schemas, remap) == ConnectionsMerged(s).schemas;
    assert KeptAt(s.connections, remap) == ConnectionsMerged(s).connections;
  }

  lemma RemapIsHome(services: map<nat, Service>)
    ensures var remap := RemapTable(ServiceKeys(services));
            && (forall id :: Repoint(remap, id) == HomeOf(services, id))
            && (forall id :: id in remap ==> Repoint(remap, remap[id]) == remap[id])
  {
    hide Survivor;
    forall id | id in services ensures HomeOf(services, HomeOf(services, id)) == HomeOf(services, id) {
      HomeIs(services, id);
    }
    NotInTable(ServiceKeys(services));
  }

  lemma NotInTable<K>(keys: map<nat, K>)
    ensures forall id :: id !in keys ==> Survivor(keys, id) == id
  {
  }

  lemma RemapIsRepoHome(repos: map<nat, Repo>)
    ensures forall id :: Repoint(RemapTable(RepoKeys(repos)), id) == RepoHome(repos, id)
  {
    hide Survivor;
    NotInTable(RepoKeys(repos));
  }

  lemma RemapIsConnectionHome(connections: map<nat, Connection>)
    ensures forall id :: Repoint(RemapTable(ConnectionKeys(connections)), id) == ConnectionHome(connections, id)
  {
    hide Survivor;
    NotInTable(ConnectionKeys(connections));
  }

  lemma RepointedRows(start: map<nat, Endpoint>, remap: map<nat, nat>)
    ensures Repointed(start, remap).Keys == start.Keys
    ensures forall id :: id in start ==>
            Repointed(start, remap)[id] == start[id].(service := Repoint(remap, start[id].service))
  {
  }

  // A row never leaves the service it was moved to, so a row it meets there stays.
  lemma CollidesAtHome(start: map<nat, Endpoint>, remap: map<nat, nat>, id: nat, other: nat, row: Endpoint)
    requires forall x :: x in remap ==> Repoint(remap, remap[x]) == remap[x]
    requires id in start && other in start && id != other && start[id] != Repointed(start, remap)[id]
    requires row == start[other] || row == Repointed(start, remap)[other]
    requires Collide(Repointed(start, remap)[id], row)
    ensures !UniqueEndpoints(Repointed(start, remap))
  {
    var goal := Repointed(start, remap);
    assert goal[other] == row by {
      assert Repoint(remap, row.service) == row.service;
    }
    assert Collide(goal[id], goal[other]);
  }

  lemma UniqueAfter(endpoints: map<nat, Endpoint>, id: nat, row: Endpoint)
    requires UniqueEndpoints(endpoints) && id in endpoints
    requires forall other :: other in endpoints && other != id ==> !Collide(row, endpoints[other])
    ensures UniqueEndpoints(endpoints[id := row])
  {
    assert forall a, b: Endpoint :: Collide(a, b) <==> Collide(b, a);
    hide Collide;
  }

  lemma GraphIsItself(s: Store)
    requires References(s)
    ensures SameGraph(s, s)
  {
  }

  // A repository registered twice and scanned under the id that goes: 006 throws on it.
  lemma ScannedDuplicateBlocksMerge()
    ensures var s := Store(map[1 := Repo("/r", ""), 2 := Repo("/r", "")], map[], map[], map[], map[], map[],
                           map[1 := 1], false);
            References(s) && !CanMergeRepos(s)
  {
    var repos: map<nat, Repo> := map[1 := Repo("/r", ""), 2 := Repo("/r", "")];
    var keys := RepoKeys(repos);
    assert keys[1] == keys[2] == "/r";
    SurvivorHasTheKey(keys, 1);
    assert RepoHome(repos, 1) == 2;
    var scanned: map<nat, nat> := map[1 := 1];
    assert 1 in scanned && scanned[1] == 1;
  }

  // A service stored twice, each row exposing GET /x: 004 throws on it.
  lemma SharedEndpointBlocksMerge()
    ensures var s := Store(map[1 := Repo("/r", "")], map[1 := Service(1, "a", ""), 2 := Service(1, "a", "")], map[],
                           map[1 := Endpoint(1, Some("GET"), "/x", ""), 2 := Endpoint(2, Some("GET"), "/x", "")],
                           map[], map[], map[], false);
            References(s) && UniqueEndpoints(s.endpoints) && !CanMergeServices(s)
  {
    var s := Store(map[1 := Repo("/r", "")], map[1 := Service(1, "a", ""), 2 := Service(1, "a", "")], map[],
                   map[1 := Endpoint(1, Some("GET"), "/x", ""), 2 := Endpoint(2, Some("GET"), "/x", "")],
                   map[], map[], map[], false);
    SameHome(s.services, 1, 2);
    var after := ServicesMerged(s).endpoints;
    assert after[1].service == after[2].service;
    assert Collide(after[1], after[2]);
  }
}
