// queryGraph of worker/mcp/server.js: the nodes and name-to-name edges around a service, from walks
// that may revisit nodes.
module GraphQuery {
  import opened Common
  import opened Impact
  import JsMap

  datatype Connection = Connection(source: nat, target: nat, details: string)

  datatype Node = Node(id: nat, name: string)

  datatype GraphEdge = GraphEdge(source: string, target: string, details: string)

  datatype Sides = Down | Up | Both

  // ---------------------------------------------------------------- the traversal query

  function Next(edges: seq<Edge>, id: nat): seq<nat> {
    if edges == [] then []
    else (if edges[0].source == id then [edges[0].target] else []) + Next(edges[1..], id)
  }

  function NextAll(edges: seq<Edge>, ids: seq<nat>): seq<nat> {
    if ids == [] then [] else Next(edges, ids[0]) + NextAll(edges, ids[1..])
  }

  // The ids the query adds in its d-th round, one per walk of d edges.
  function WalkRound(edges: seq<Edge>, s: nat, d: nat): seq<nat>
    requires d >= 1
  {
    if d == 1 then Next(edges, s) else NextAll(edges, WalkRound(edges, s, d - 1))
  }

  // SELECT DISTINCT id FROM traversal
  function Walked(edges: seq<Edge>, s: nat, d: nat): set<nat> {
    if d == 0 then {} else Walked(edges, s, d - 1) + set x | x in WalkRound(edges, s, d)
  }

  lemma {:induction false} NextMembers(edges: seq<Edge>, id: nat, x: nat)
    ensures x in Next(edges, id) <==> Edge(id, x) in edges
  {
    if edges != [] {
      NextMembers(edges[1..], id, x);
      assert edges == [edges[0]] + edges[1..];
    }
  }

  lemma {:induction false} NextAllMembers(edges: seq<Edge>, ids: seq<nat>, x: nat)
    ensures x in NextAll(edges, ids) <==> exists id :: id in ids && Edge(id, x) in edges
  {
    if ids != [] {
      NextAllMembers(edges, ids[1..], x);
      NextMembers(edges, ids[0], x);
      assert ids == [ids[0]] + ids[1..];
    }
  }

  ghost predicate RoundWithin(edges: seq<Edge>, s: nat, k: nat) {
    k > 0 ==> forall x :: x in WalkRound(edges, s, k) ==> x in Within(edges, s, k)
  }

  // Walks with repetition reach, root aside, what breadth-first search reaches.
  lemma {:induction false} WalksReachLayers(edges: seq<Edge>, s: nat, k: nat)
    ensures {s} + Walked(edges, s, k) == Within(edges, s, k)
    ensures RoundWithin(edges, s, k)
  {
    if k > 0 {
      WalksReachLayers(edges, s, k - 1);
      forall x | x in WalkRound(edges, s, k) ensures x in Targets(edges, Within(edges, s, k - 1)) {
        WalkedFrom(edges, s, k, x);
      }
      forall x | x in Targets(edges, Within(edges, s, k - 1)) ensures x in {s} + Walked(edges, s, k) {
        WalkTo(edges, s, k, x);
      }
      hide WalkRound, Targets;
    }
  }

  lemma {:induction false} WalkedFrom(edges: seq<Edge>, s: nat, k: nat, x: nat)
    requires k > 0 && x in WalkRound(edges, s, k) && RoundWithin(edges, s, k - 1)
    ensures x in Targets(edges, Within(edges, s, k - 1))
  {
    if k == 1 {
      NextMembers(edges, s, x);
      assert Edge(s, x) in edges;
    } else {
      NextAllMembers(edges, WalkRound(edges, s, k - 1), x);
      var id :| id in WalkRound(edges, s, k - 1) && Edge(id, x) in edges;
      assert Edge(id, x).source in Within(edges, s, k - 1);
    }
  }

  lemma WalkTo(edges: seq<Edge>, s: nat, k: nat, x: nat)
    requires k > 0 && x in Targets(edges, Within(edges, s, k - 1))
    requires {s} + Walked(edges, s, k - 1) == Within(edges, s, k - 1)
    ensures x in Walked(edges, s, k)
  {
    var e :| e in edges && e.source in Within(edges, s, k - 1) && e.target == x;
    assert e == Edge(e.source, x);
    hide Targets, WalkRound, Walked;
    StepFrom(edges, s, k, e.source, x);
  }

  lemma StepFrom(edges: seq<Edge>, s: nat, k: nat, id: nat, x: nat)
    requires k > 0 && Edge(id, x) in edges && (id == s || id in Walked(edges, s, k - 1))
    ensures x in Walked(edges, s, k)
  {
    hide WalkRound, Walked;
    if id == s {
      FirstStep(edges, s, x);
      RoundIsWalked(edges, s, 1, k, x);
    } else {
      var d := WalkedInRound(edges, s, k - 1, id);
      NextStep(edges, s, d, id, x);
      RoundIsWalked(edges, s, d + 1, k, x);
    }
  }

  lemma FirstStep(edges: seq<Edge>, s: nat, x: nat)
    requires Edge(s, x) in edges
    ensures x in WalkRound(edges, s, 1)
  {
    NextMembers(edges, s, x);
  }

  lemma NextStep(edges: seq<Edge>, s: nat, d: nat, id: nat, x: nat)
    requires d >= 1 && id in WalkRound(edges, s, d) && Edge(id, x) in edges
    ensures x in WalkRound(edges, s, d + 1)
  {
    NextAllMembers(edges, WalkRound(edges, s, d), x);
  }

  lemma {:induction false} WalkedInRound(edges: seq<Edge>, s: nat, k: nat, x: nat) returns (d: nat)
    requires x in Walked(edges, s, k)
    ensures 1 <= d <= k && x in WalkRound(edges, s, d)
  {
    d := k;
    if x !in WalkRound(edges, s, k) {
      d := WalkedInRound(edges, s, k - 1, x);
    }
  }

  lemma {:induction false} RoundIsWalked(edges: seq<Edge>, s: nat, d: nat, k: nat, x: nat)
    requires 1 <= d <= k && x in WalkRound(edges, s, d)
    ensures x in Walked(edges, s, k)
  {
    if d < k {
      RoundIsWalked(edges, s, d, k - 1, x);
    }
  }

  // Over any graph and depth, the unguarded walks and the simple-path query of transitiveImpact list the
  // same services, root aside.
  lemma WalksAgreeWithSimplePaths(rows: seq<Edge>, services: map<nat, string>, s: nat, direction: Direction,
                                  maxDepth: int, x: nat)
    requires x != s && x in services
    ensures x in Walked(Oriented(rows, direction), s, Depth(maxDepth))
            <==> x in TransitiveImpact(rows, services, s, direction, maxDepth)
  {
    WalksReachLayers(Oriented(rows, direction), s, Depth(maxDepth));
    TransitiveImpactIsBreadthFirst(rows, services, s, direction, maxDepth, x);
  }

  // ---------------------------------------------------------------- edge keys

  // `${source}→${target}`
  function Key(pair: (string, string)): string {
    pair.0 + "\U{2192}" + pair.1
  }

  // No two different name pairs share a key.
  ghost predicate NoClash(pairs: set<(string, string)>) {
    forall p, q :: p in pairs && q in pairs && Key(p) == Key(q) ==> p == q
  }

  function PairOf(e: GraphEdge): (string, string) {
    (e.source, e.target)
  }

  // What deduplicating by key leaves of the pairs: one edge per key.
  ghost predicate OnePerKey(edges: seq<GraphEdge>, pairs: set<(string, string)>) {
    && (forall i :: 0 <= i < |edges| ==> PairOf(edges[i]) in pairs)
    && (forall i, j :: 0 <= i < j < |edges| ==> Key(PairOf(edges[i])) != Key(PairOf(edges[j])))
    && (forall p :: p in pairs ==> ListsKey(edges, Key(p)))
  }

  ghost predicate ListsKey(edges: seq<GraphEdge>, k: string) {
    exists i :: 0 <= i < |edges| && Key(PairOf(edges[i])) == k
  }

  // seen (the source's edgeSet) holds exactly the keys of the pairs.
  ghost predicate SeenAre(seen: set<string>, pairs: set<(string, string)>) {
    (forall p :: p in pairs ==> Key(p) in seen) && forall k :: k in seen ==> IsKeyOf(k, pairs)
  }

  ghost predicate IsKeyOf(k: string, pairs: set<(string, string)>) {
    exists p :: p in pairs && Key(p) == k
  }

  // Every pair is listed, once.
  ghost predicate ListsExactly(edges: seq<GraphEdge>, pairs: set<(string, string)>) {
    && (forall i :: 0 <= i < |edges| ==> PairOf(edges[i]) in pairs)
    && (forall i, j :: 0 <= i < j < |edges| ==> PairOf(edges[i]) != PairOf(edges[j]))
    && (forall p :: p in pairs ==> exists i :: 0 <= i < |edges| && PairOf(edges[i]) == p)
  }

  // The edges list every pair exactly when no two pairs share a key.
  lemma ExactIffNoClash(edges: seq<GraphEdge>, pairs: set<(string, string)>)
    requires OnePerKey(edges, pairs)
    ensures ListsExactly(edges, pairs) <==> NoClash(pairs)
  {
    hide Key;
    if ListsExactly(edges, pairs) {
      forall p, q | p in pairs && q in pairs && Key(p) == Key(q) ensures p == q {
        var i :| 0 <= i < |edges| && PairOf(edges[i]) == p;
        var j :| 0 <= j < |edges| && PairOf(edges[j]) == q;
      }
    }
    if NoClash(pairs) {
      forall p | p in pairs ensures exists i :: 0 <= i < |edges| && PairOf(edges[i]) == p {
        assert ListsKey(edges, Key(p));
        var i :| 0 <= i < |edges| && Key(PairOf(edges[i])) == Key(p);
        assert PairOf(edges[i]) == p;
      }
    }
  }

  // Names without an arrow never clash.
  lemma ArrowFreeNamesDoNotClash(pairs: set<(string, string)>)
    requires forall p :: p in pairs ==> '\U{2192}' !in p.0 && '\U{2192}' !in p.1
    ensures NoClash(pairs)
  {
    forall p, q | p in pairs && q in pairs && Key(p) == Key(q) ensures p == q {
      ArrowFreePairsDiffer(p, q);
    }
  }

  lemma ArrowFreePairsDiffer(p: (string, string), q: (string, string))
    requires '\U{2192}' !in p.0 && '\U{2192}' !in q.0 && Key(p) == Key(q)
    ensures p == q
  {
    var k := Key(p);
    assert (forall i :: 0 <= i < |p.0| ==> k[i] == p.0[i]) && k[|p.0|] == '\U{2192}';
    assert (forall i :: 0 <= i < |q.0| ==> k[i] == q.0[i]) && k[|q.0|] == '\U{2192}';
    assert p.0 == k[..|p.0|] && q.0 == k[..|q.0|];
    assert p.1 == k[|p.0| + 1..] && q.1 == k[|q.0| + 1..];
  }

  // ---------------------------------------------------------------- queryGraph

  function EdgesOf(connections: seq<Connection>): (r: seq<Edge>)
    ensures |r| == |connections|
    ensures forall i :: 0 <= i < |r| ==> r[i] == Edge(connections[i].source, connections[i].target)
  {
    seq(|connections|, i requires 0 <= i < |connections| => Edge(connections[i].source, connections[i].target))
  }

  // The ids one pass works on: the root and what its traversal returned.
  function PassIds(connections: seq<Connection>, root: nat, direction: Direction, depth: int): set<nat> {
    {root} + Walked(Oriented(EdgesOf(connections), direction), root, Depth(if depth < 5 then depth else 5))
  }

  // What breadth-first search gives for the same pass.
  function Reach(connections: seq<Connection>, root: nat, direction: Direction, depth: int): set<nat> {
    Within(Oriented(EdgesOf(connections), direction), root, Depth(if depth < 5 then depth else 5))
  }

  // A pass follows one to five connections from the root, as many as the depth says.
  lemma ReachByWalks(connections: seq<Connection>, root: nat, direction: Direction, depth: int, x: nat)
    ensures x in Reach(connections, root, direction, depth)
            <==> Reaches(EdgesOf(connections), direction, root, x,
                         if depth < 1 then 1 else if depth > 5 then 5 else depth)
  {
    WithinIffReaches(EdgesOf(connections), direction, root, x, Depth(if depth < 5 then depth else 5));
    hide Reaches, Within;
  }

  lemma PassIdsAreReach(connections: seq<Connection>, root: nat, direction: Direction, depth: int)
    ensures PassIds(connections, root, direction, depth) == Reach(connections, root, direction, depth)
  {
    WalksReachLayers(Oriented(EdgesOf(connections), direction), root, Depth(if depth < 5 then depth else 5));
  }

  // The name pairs of the connections with both ends among the ids; the join drops unknown services.
  function InducedPairs(services: map<nat, string>, connections: seq<Connection>, ids: set<nat>)
      : set<(string, string)>
  {
    set c | c in connections && Joined(services, c, ids) :: (services[c.source], services[c.target])
  }

  ghost predicate HasNodes(nodes: JsMap.Map<nat, Node>, services: map<nat, string>, ids: set<nat>) {
    && nodes.Valid()
    && (forall x :: x in nodes.vals <==> x in services && x in ids)
    && (forall x :: x in nodes.vals ==> nodes.vals[x] == Node(x, services[x]))
  }

  // One traversal's loop over the ids it found.
  method CollectNodes(services: map<nat, string>, found: set<nat>, nodes: JsMap.Map<nat, Node>, ghost ids: set<nat>)
    returns (nodes': JsMap.Map<nat, Node>)
    requires HasNodes(nodes, services, ids)
    ensures HasNodes(nodes', services, ids + found)
  {
    nodes' := nodes;
    var left := found;
    while left != {}
      invariant left <= found
      invariant HasNodes(nodes', services, ids + (found - left))
      decreases left
    {
      var id :| id in left;
      if id !in nodes'.vals && id in services {
        nodes' := nodes'.Set(id, Node(id, services[id]));
      }
      left := left - {id};
    }
  }

  predicate Joined(services: map<nat, string>, c: Connection, ids: set<nat>) {
    c.source in services && c.target in services && c.source in ids && c.target in ids
  }

  // The rows of one edge query, in its order.
  function JoinedRows(services: map<nat, string>, connections: seq<Connection>, ids: set<nat>): seq<GraphEdge> {
    if connections == [] then []
    else
      var c := connections[|connections| - 1];
      JoinedRows(services, connections[..|connections| - 1], ids)
      + (if Joined(services, c, ids) then [GraphEdge(services[c.source], services[c.target], c.details)] else [])
  }

  // The first row of every key.
  function FirstPerKey(rows: seq<GraphEdge>): seq<GraphEdge> {
    if rows == [] then []
    else
      var last := rows[|rows| - 1];
      FirstPerKey(rows[..|rows| - 1])
      + (if exists i :: 0 <= i < |rows| - 1 && Key(PairOf(rows[i])) == Key(PairOf(last)) then [] else [last])
  }

  // seen holds exactly the keys of the rows read so far.
  ghost predicate SeenRows(seen: set<string>, rows: seq<GraphEdge>) {
    forall k :: k in seen <==> ListsKey(rows, k)
  }

  lemma OneMoreRow(seen: set<string>, rows: seq<GraphEdge>, e: GraphEdge)
    requires SeenRows(seen, rows)
    ensures SeenRows(seen + {Key(PairOf(e))}, rows + [e])
    ensures FirstPerKey(rows + [e]) == FirstPerKey(rows) + (if Key(PairOf(e)) in seen then [] else [e])
  {
    hide Key;
    var longer := rows + [e];
    assert longer[..|rows|] == rows;
    assert forall i :: 0 <= i < |rows| ==> longer[i] == rows[i];
    forall k ensures ListsKey(longer, k) <==> ListsKey(rows, k) || k == Key(PairOf(e)) {
      if ListsKey(rows, k) {
        var i :| 0 <= i < |rows| && Key(PairOf(rows[i])) == k;
        assert Key(PairOf(longer[i])) == k;
      }
      assert longer[|rows|] == e;
    }
  }

  // One traversal's loop over the connections among its ids; seen is edgeSet.
  method CollectEdges(services: map<nat, string>, connections: seq<Connection>, ids: set<nat>,
                      seen: set<string>, edges: seq<GraphEdge>, ghost pairs: set<(string, string)>,
                      ghost rows: seq<GraphEdge>)
    returns (seen': set<string>, edges': seq<GraphEdge>)
    requires OnePerKey(edges, pairs) && SeenAre(seen, pairs)
    requires SeenRows(seen, rows) && edges == FirstPerKey(rows)
    ensures SeenRows(seen', rows + JoinedRows(services, connections, ids))
    ensures edges' == FirstPerKey(rows + JoinedRows(services, connections, ids))
    ensures OnePerKey(edges', pairs + InducedPairs(services, connections, ids))
    ensures SeenAre(seen', pairs + InducedPairs(services, connections, ids))
  {
    hide OnePerKey, SeenAre, Key, InducedPairs, SeenRows, FirstPerKey;
    seen', edges' := seen, edges;
    assert rows + [] == rows;
    var i := 0;
    NothingInduced(services, ids);
    assert pairs + {} == pairs && connections[..0] == [];
    while i < |connections|
      invariant 0 <= i <= |connections|
      invariant OnePerKey(edges', pairs + InducedPairs(services, connections[..i], ids))
      invariant SeenAre(seen', pairs + InducedPairs(services, connections[..i], ids))
      invariant SeenRows(seen', rows + JoinedRows(services, connections[..i], ids))
      invariant edges' == FirstPerKey(rows + JoinedRows(services, connections[..i], ids))
    {
      assert connections[..i + 1][..i] == connections[..i];
      ghost var read := rows + JoinedRows(services, connections[..i], ids);
      var c := connections[i];
      ghost var before := pairs + InducedPairs(services, connections[..i], ids);
      InducedByOneMore(services, connections[..i], c, ids);
      assert connections[..i + 1] == connections[..i] + [c];
      if Joined(services, c, ids) {
        var pair := (services[c.source], services[c.target]);
        var e := GraphEdge(pair.0, pair.1, c.details);
        OneMoreRow(seen', read, e);
        assert read + [e] == rows + JoinedRows(services, connections[..i + 1], ids);
        assert before + {pair} == pairs + InducedPairs(services, connections[..i + 1], ids);
        if Key(pair) !in seen' {
          NewKey(edges', seen', before, e);
          seen' := seen' + {Key(pair)};
          edges' := edges' + [e];
        } else {
          KeyAlreadyThere(edges', seen', before, pair);
          assert seen' + {Key(pair)} == seen';
        }
      } else {
        assert read == rows + JoinedRows(services, connections[..i + 1], ids);
        assert before == pairs + InducedPairs(services, connections[..i + 1], ids);
      }
      i := i + 1;
    }
    assert connections[..i] == connections;
  }

  lemma NothingInduced(services: map<nat, string>, ids: set<nat>)
    ensures InducedPairs(services, [], ids) == {}
  {
  }

  lemma InducedByOneMore(services: map<nat, string>, connections: seq<Connection>, c: Connection, ids: set<nat>)
    ensures InducedPairs(services, connections + [c], ids)
            == InducedPairs(services, connections, ids)
               + (if Joined(services, c, ids) then {(services[c.source], services[c.target])} else {})
  {
    forall d ensures d in connections + [c] <==> d in connections || d == c {
    }
  }

  lemma NewKey(edges: seq<GraphEdge>, seen: set<string>, pairs: set<(string, string)>, e: GraphEdge)
    requires OnePerKey(edges, pairs) && SeenAre(seen, pairs) && Key(PairOf(e)) !in seen
    ensures OnePerKey(edges + [e], pairs + {PairOf(e)})
    ensures SeenAre(seen + {Key(PairOf(e))}, pairs + {PairOf(e)})
  {
    hide Key;
    var longer, more := edges + [e], pairs + {PairOf(e)};
    forall p | p in more ensures ListsKey(longer, Key(p)) {
      if p == PairOf(e) {
        assert longer[|edges|] == e;
      } else {
        var i :| 0 <= i < |edges| && Key(PairOf(edges[i])) == Key(p);
        assert longer[i] == edges[i];
      }
    }
    MorePairs(seen, pairs, PairOf(e));
  }

  lemma MorePairs(seen: set<string>, pairs: set<(string, string)>, pair: (string, string))
    requires SeenAre(seen, pairs)
    ensures SeenAre(seen + {Key(pair)}, pairs + {pair})
  {
    hide Key;
    forall k | k in seen + {Key(pair)} ensures IsKeyOf(k, pairs + {pair}) {
      if k == Key(pair) {
        assert pair in pairs + {pair};
      } else {
        var p :| p in pairs && Key(p) == k;
        assert p in pairs + {pair};
      }
    }
  }

  lemma KeyAlreadyThere(edges: seq<GraphEdge>, seen: set<string>, pairs: set<(string, string)>, pair: (string, string))
    requires OnePerKey(edges, pairs) && SeenAre(seen, pairs) && Key(pair) in seen
    ensures OnePerKey(edges, pairs + {pair}) && SeenAre(seen, pairs + {pair})
  {
    hide Key;
    MorePairs(seen, pairs, pair);
    assert seen + {Key(pair)} == seen;
    assert IsKeyOf(Key(pair), pairs);
    hide ListsKey;
  }

  // The ids and the name pairs of the passes the direction asks for.
  function IdsOf(connections: seq<Connection>, root: nat, depth: int, sides: Sides): set<nat> {
    (if sides.Up? then {} else Reach(connections, root, Downstream, depth))
    + (if sides.Down? then {} else Reach(connections, root, Upstream, depth))
  }

  function PairsOf(services: map<nat, string>, connections: seq<Connection>, root: nat, depth: int, sides: Sides)
      : set<(string, string)>
  {
    (if sides.Up? then {} else InducedPairs(services, connections, Reach(connections, root, Downstream, depth)))
    + (if sides.Down? then {} else InducedPairs(services, connections, Reach(connections, root, Upstream, depth)))
  }

  // The rows of the edge queries, the downstream pass first.
  function RowsOf(services: map<nat, string>, connections: seq<Connection>, root: nat, depth: int, sides: Sides)
      : seq<GraphEdge>
  {
    (if sides.Up? then [] else JoinedRows(services, connections, Reach(connections, root, Downstream, depth)))
    + (if sides.Down? then [] else JoinedRows(services, connections, Reach(connections, root, Upstream, depth)))
  }

  // ---------------------------------------------------------------- where an edge comes from

  // A row of the edge queries: connection `index`, met in pass `pass`.
  datatype Origin = Origin(pass: nat, index: nat)

  predicate Earlier(a: Origin, b: Origin) {
    a.pass < b.pass || (a.pass == b.pass && a.index < b.index)
  }

  // The ids of the passes, the downstream one first.
  function Passes(connections: seq<Connection>, root: nat, depth: int, sides: Sides): seq<set<nat>> {
    (if sides.Up? then [] else [Reach(connections, root, Downstream, depth)])
    + (if sides.Down? then [] else [Reach(connections, root, Upstream, depth)])
  }

  // The pass meets the connection: both ends are services among its ids.
  predicate Meets(services: map<nat, string>, connections: seq<Connection>, passes: seq<set<nat>>, o: Origin) {
    o.pass < |passes| && o.index < |connections| && Joined(services, connections[o.index], passes[o.pass])
  }

  // The edge has the names of the connection's ends, and the connection's own columns.
  ghost predicate IsEdgeOf(services: map<nat, string>, e: GraphEdge, c: Connection) {
    c.source in services && c.target in services
    && e.source == services[c.source] && e.target == services[c.target] && e.details == c.details
  }

  function KeyAt(services: map<nat, string>, connections: seq<Connection>, passes: seq<set<nat>>, o: Origin): string
    requires Meets(services, connections, passes, o)
  {
    Key((services[connections[o.index].source], services[connections[o.index].target]))
  }

  // No earlier connection has the same key.
  ghost predicate IsFirst(services: map<nat, string>, connections: seq<Connection>, passes: seq<set<nat>>, o: Origin) {
    && Meets(services, connections, passes, o)
    && forall e :: Meets(services, connections, passes, e) && Earlier(e, o) ==>
         KeyAt(services, connections, passes, e) != KeyAt(services, connections, passes, o)
  }

  // The edges are those of the connections that come first with their key, in order.
  ghost predicate EdgesAre(edges: seq<GraphEdge>, services: map<nat, string>, connections: seq<Connection>,
                           passes: seq<set<nat>>, origins: seq<Origin>)
  {
    && |origins| == |edges|
    && (forall k :: 0 <= k < |edges| ==>
          IsFirst(services, connections, passes, origins[k])
          && IsEdgeOf(services, edges[k], connections[origins[k].index]))
    && (forall j, k :: 0 <= j < k < |edges| ==> Earlier(origins[j], origins[k]))
    && (forall o :: IsFirst(services, connections, passes, o) ==> o in origins)
  }

  ghost predicate HaveOrigins(edges: seq<GraphEdge>, services: map<nat, string>, connections: seq<Connection>,
                              passes: seq<set<nat>>)
  {
    exists origins :: EdgesAre(edges, services, connections, passes, origins)
  }

  // Every row with its connection, in order.
  ghost predicate RowsCome(rows: seq<GraphEdge>, services: map<nat, string>, connections: seq<Connection>,
                           passes: seq<set<nat>>, os: seq<Origin>)
  {
    && |os| == |rows|
    && (forall k :: 0 <= k < |rows| ==>
          Meets(services, connections, passes, os[k]) && IsEdgeOf(services, rows[k], connections[os[k].index]))
    && (forall j, k :: 0 <= j < k < |rows| ==> Earlier(os[j], os[k]))
  }

  lemma {:induction false} PassOrigins(services: map<nat, string>, connections: seq<Connection>, passes: seq<set<nat>>,
                                       p: nat, n: nat) returns (os: seq<Origin>)
    requires p < |passes| && n <= |connections|
    ensures RowsCome(JoinedRows(services, connections[..n], passes[p]), services, connections, passes, os)
    ensures forall o :: o in os <==> o.pass == p && o.index < n && Meets(services, connections, passes, o)
  {
    os := [];
    if n > 0 {
      os := PassOrigins(services, connections, passes, p, n - 1);
      var c := connections[n - 1];
      assert connections[..n][..n - 1] == connections[..n - 1];
      var rows := JoinedRows(services, connections[..n - 1], passes[p]);
      hide JoinedRows;
      if Joined(services, c, passes[p]) {
        OneMoreOrigin(services, connections, passes, rows, os, Origin(p, n - 1));
        os := os + [Origin(p, n - 1)];
      }
    }
  }

  lemma OneMoreOrigin(services: map<nat, string>, connections: seq<Connection>, passes: seq<set<nat>>,
                      rows: seq<GraphEdge>, os: seq<Origin>, o: Origin)
    requires RowsCome(rows, services, connections, passes, os) && Meets(services, connections, passes, o)
    requires forall e :: e in os ==> Earlier(e, o)
    ensures var c := connections[o.index];
            RowsCome(rows + [GraphEdge(services[c.source], services[c.target], c.details)], services, connections,
                     passes, os + [o])
    ensures forall e :: e in os + [o] <==> e in os || e == o
  {
  }

  lemma TwoPasses(services: map<nat, string>, connections: seq<Connection>, passes: seq<set<nat>>,
                  a: seq<GraphEdge>, b: seq<GraphEdge>, os: seq<Origin>, os': seq<Origin>)
    requires RowsCome(a, services, connections, passes, os) && RowsCome(b, services, connections, passes, os')
    requires forall o, o' :: o in os && o' in os' ==> Earlier(o, o')
    ensures RowsCome(a + b, services, connections, passes, os + os')
    ensures forall e :: e in os + os' <==> e in os || e in os'
  {
    hide Meets, IsEdgeOf, Earlier;
    var rows, all := a + b, os + os';
    forall j, k | 0 <= j < k < |rows| ensures Earlier(all[j], all[k]) {
      if j < |os| <= k {
        assert all[j] in os && all[k] in os';
      }
    }
  }

  lemma AllOrigins(services: map<nat, string>, connections: seq<Connection>, root: nat, depth: int, sides: Sides)
      returns (os: seq<Origin>)
    ensures var passes := Passes(connections, root, depth, sides);
            && RowsCome(RowsOf(services, connections, root, depth, sides), services, connections, passes, os)
            && (forall o :: o in os <==> Meets(services, connections, passes, o))
  {
    hide JoinedRows, RowsCome, Reach, Joined;
    var passes, n := Passes(connections, root, depth, sides), |connections|;
    assert connections[..n] == connections;
    os := PassOrigins(services, connections, passes, 0, n);
    if sides.Both? {
      var up := PassOrigins(services, connections, passes, 1, n);
      TwoPasses(services, connections, passes, JoinedRows(services, connections, passes[0]),
                JoinedRows(services, connections, passes[1]), os, up);
      os := os + up;
    } else {
      var rows := JoinedRows(services, connections, passes[0]);
      assert rows + [] == rows == [] + rows;
    }
  }

  // The first m rows' edges, with the connections that come first among those.
  ghost predicate FirstsAre(services: map<nat, string>, connections: seq<Connection>, passes: seq<set<nat>>,
                            rows: seq<GraphEdge>, os: seq<Origin>, m: nat, firsts: seq<Origin>)
    requires m <= |rows| == |os|
  {
    && RowsCome(FirstPerKey(rows[..m]), services, connections, passes, firsts)
    && (forall o :: o in firsts <==> o in os[..m] && IsFirst(services, connections, passes, o))
  }

  lemma {:induction false} FirstOrigins(services: map<nat, string>, connections: seq<Connection>,
                                        passes: seq<set<nat>>, rows: seq<GraphEdge>, os: seq<Origin>, m: nat)
      returns (firsts: seq<Origin>)
    requires RowsCome(rows, services, connections, passes, os) && m <= |rows|
    requires forall o :: Meets(services, connections, passes, o) ==> o in os
    ensures FirstsAre(services, connections, passes, rows, os, m, firsts)
  {
    assert |os| == |rows|;
    hide RowsCome, FirstPerKey, IsFirst, Meets, Key;
    firsts := [];
    if m == 0 {
      NoRowsCome(services, connections, passes);
      NothingSeen();
      assert rows[..0] == [];
    } else {
      var earlier := FirstOrigins(services, connections, passes, rows, os, m - 1);
      OsOfRows(services, connections, passes, rows, os, m - 1);
      assert os[..m] == os[..m - 1] + [os[m - 1]];
      FirstRows(rows, m - 1);
      FirstIff(services, connections, passes, rows, os, m - 1);
      firsts := earlier;
      if IsFirst(services, connections, passes, os[m - 1]) {
        TwoPasses(services, connections, passes, FirstPerKey(rows[..m - 1]), [rows[m - 1]], earlier, [os[m - 1]]);
        firsts := earlier + [os[m - 1]];
      }
    }
  }

  lemma NoRowsCome(services: map<nat, string>, connections: seq<Connection>, passes: seq<set<nat>>)
    ensures RowsCome([], services, connections, passes, [])
  {
  }

  lemma OsOfRows(services: map<nat, string>, connections: seq<Connection>, passes: seq<set<nat>>,
                 rows: seq<GraphEdge>, os: seq<Origin>, m: nat)
    requires RowsCome(rows, services, connections, passes, os) && m < |rows|
    ensures RowsCome([rows[m]], services, connections, passes, [os[m]])
    ensures forall o :: o in os[..m] ==> Earlier(o, os[m])
  {
    hide Meets, IsEdgeOf, Earlier;
  }

  lemma FirstRows(rows: seq<GraphEdge>, m: nat)
    requires m < |rows|
    ensures FirstPerKey(rows[..m + 1])
            == FirstPerKey(rows[..m])
               + (if exists i :: 0 <= i < m && Key(PairOf(rows[i])) == Key(PairOf(rows[m])) then [] else [rows[m]])
  {
    hide Key, PairOf;
    assert rows[..m + 1][..m] == rows[..m];
  }

  // A row is the first of its key among the rows exactly if its connection is.
  lemma FirstIff(services: map<nat, string>, connections: seq<Connection>, passes: seq<set<nat>>,
                 rows: seq<GraphEdge>, os: seq<Origin>, m: nat)
    requires RowsCome(rows, services, connections, passes, os) && m < |rows|
    requires forall o :: Meets(services, connections, passes, o) ==> o in os
    ensures IsFirst(services, connections, passes, os[m])
            <==> !(exists i :: 0 <= i < m && Key(PairOf(rows[i])) == Key(PairOf(rows[m])))
  {
    hide Key;
    forall k | 0 <= k < |rows| ensures Key(PairOf(rows[k])) == KeyAt(services, connections, passes, os[k]) {
    }
    if IsFirst(services, connections, passes, os[m]) {
      forall i | 0 <= i < m ensures Key(PairOf(rows[i])) != Key(PairOf(rows[m])) {
        assert Earlier(os[i], os[m]);
      }
    } else {
      var e :| Meets(services, connections, passes, e) && Earlier(e, os[m])
               && KeyAt(services, connections, passes, e) == KeyAt(services, connections, passes, os[m]);
      var i :| 0 <= i < |os| && os[i] == e;
      assert i < m;
    }
  }

  // The edges of queryGraph are, in order, those of the connections that no earlier one of the passes shares a key
  // with.
  lemma EdgesComeFromConnections(services: map<nat, string>, connections: seq<Connection>, root: nat, depth: int,
                                 sides: Sides) returns (origins: seq<Origin>)
    ensures EdgesAre(FirstPerKey(RowsOf(services, connections, root, depth, sides)), services, connections,
                     Passes(connections, root, depth, sides), origins)
  {
    hide RowsOf, FirstPerKey, Passes, IsFirst, Meets, IsEdgeOf;
    var passes, rows := Passes(connections, root, depth, sides), RowsOf(services, connections, root, depth, sides);
    var os := AllOrigins(services, connections, root, depth, sides);
    origins := FirstOrigins(services, connections, passes, rows, os, |rows|);
    assert rows[..|rows|] == rows && os[..|rows|] == os;
    FirstsAreMet(services, connections, passes);
  }

  lemma FirstsAreMet(services: map<nat, string>, connections: seq<Connection>, passes: seq<set<nat>>)
    ensures forall o :: IsFirst(services, connections, passes, o) ==> Meets(services, connections, passes, o)
  {
  }

  lemma NothingSeen()
    ensures SeenRows({}, []) && FirstPerKey([]) == []
  {
  }

  // The nodes are the given ids that are services, root aside, each once and with its name.
  ghost predicate AreNodes(nodes: seq<Node>, services: map<nat, string>, ids: set<nat>, root: nat) {
    && (forall i, j :: 0 <= i < j < |nodes| ==> nodes[i].id != nodes[j].id)
    && (forall n :: n in nodes <==> n.id in services && n.id in ids && n == Node(n.id, services[n.id]) && n.id != root)
  }

  // The answer for a root: the other services breadth-first search reaches, and one edge per key of the
  // name pairs induced on each pass's ids.
  method QueryGraph(services: map<nat, string>, connections: seq<Connection>, service: string, depth: int, sides: Sides)
    returns (root: Option<nat>, nodes: seq<Node>, edges: seq<GraphEdge>)
    ensures root.None? ==> nodes == [] && edges == [] && forall x :: x in services ==> services[x] != service
    ensures root.Some? ==> root.value in services && services[root.value] == service
                           && AreNodes(nodes, services, IdsOf(connections, root.value, depth, sides), root.value)
                           && OnePerKey(edges, PairsOf(services, connections, root.value, depth, sides))
                           && edges == FirstPerKey(RowsOf(services, connections, root.value, depth, sides))
                           && HaveOrigins(edges, services, connections, Passes(connections, root.value, depth, sides))
  {
    hide InducedPairs, PassIds, Reach, Key, OnePerKey, SeenAre, HasNodes, AreNodes, SeenRows, FirstPerKey, JoinedRows,
         EdgesAre;
    ghost var rows: seq<GraphEdge> := [];
    NothingSeen();
    nodes, edges := [], [];
    if !(exists x :: x in services && services[x] == service) {
      return None, [], [];
    }
    var r: nat :| r in services && services[r] == service;
    root := Some(r);
    var down := PassIds(connections, r, Downstream, depth);
    var up := PassIds(connections, r, Upstream, depth);
    PassIdsAreReach(connections, r, Downstream, depth);
    PassIdsAreReach(connections, r, Upstream, depth);
    var nodeMap := JsMap.Empty().Set(r, Node(r, services[r]));
    var edgeSet: set<string> := {};
    ghost var ids: set<nat>, pairs: set<(string, string)> := {r}, {};
    RootOnly(nodeMap, services, r);
    if !sides.Up? {
      nodeMap := CollectNodes(services, down, nodeMap, ids);
      edgeSet, edges := CollectEdges(services, connections, down, edgeSet, edges, pairs, rows);
      ids, pairs := ids + down, pairs + InducedPairs(services, connections, down);
      rows := rows + JoinedRows(services, connections, down);
    }
    if !sides.Down? {
      nodeMap := CollectNodes(services, up, nodeMap, ids);
      edgeSet, edges := CollectEdges(services, connections, up, edgeSet, edges, pairs, rows);
      ids, pairs := ids + up, pairs + InducedPairs(services, connections, up);
      rows := rows + JoinedRows(services, connections, up);
    }
    assert pairs == PairsOf(services, connections, r, depth, sides);
    assert rows == RowsOf(services, connections, r, depth, sides);
    assert ids == {r} + IdsOf(connections, r, depth, sides);
    nodes := WithoutRoot(nodeMap, services, ids, r);
    RootDoesNotMatter(nodes, services, IdsOf(connections, r, depth, sides), r);
    var origins := EdgesComeFromConnections(services, connections, r, depth, sides);
  }

  lemma RootOnly(nodes: JsMap.Map<nat, Node>, services: map<nat, string>, root: nat)
    requires root in services && nodes.Valid() && nodes.vals == map[root := Node(root, services[root])]
    ensures HasNodes(nodes, services, {root})
    ensures OnePerKey([], {}) && SeenAre({}, {})
  {
  }

  lemma RootDoesNotMatter(nodes: seq<Node>, services: map<nat, string>, ids: set<nat>, root: nat)
    requires AreNodes(nodes, services, {root} + ids, root)
    ensures AreNodes(nodes, services, ids, root)
  {
  }

  // Array.from(nodeMap.values()).filter(n => n.id !== serviceId)
  method WithoutRoot(nodes: JsMap.Map<nat, Node>, services: map<nat, string>, ghost ids: set<nat>, root: nat)
    returns (r: seq<Node>)
    requires HasNodes(nodes, services, ids)
    ensures AreNodes(r, services, ids, root)
  {
    r := [];
    var i := 0;
    while i < |nodes.order|
      invariant 0 <= i <= |nodes.order|
      invariant forall a, b :: 0 <= a < b < |r| ==> r[a].id != r[b].id
      invariant forall n :: n in r <==> n.id in nodes.order[..i] && nodes.vals[n.id] == n && n.id != root
    {
      var id := nodes.order[i];
      assert id !in nodes.order[..i];
      assert nodes.order[..i + 1] == nodes.order[..i] + [id];
      if id != root {
        r := r + [nodes.vals[id]];
      }
      i := i + 1;
    }
    assert nodes.order[..i] == nodes.order;
  }

  // ---------------------------------------------------------------- a graph that loses an edge

  const ARROWS: map<nat, string> := map[1 := "a", 2 := "b\U{2192}c", 3 := "a\U{2192}b", 4 := "c"]
  const CHAIN: seq<Connection> := [Connection(1, 2, ""), Connection(2, 3, ""), Connection(3, 4, "")]

  lemma ChainIsReached()
    ensures {1, 2, 3, 4} <= Reach(CHAIN, 1, Downstream, 3)
  {
    var edges := Oriented(EdgesOf(CHAIN), Downstream);
    assert edges[0] == Edge(1, 2) && edges[1] == Edge(2, 3) && edges[2] == Edge(3, 4);
    assert Edge(1, 2) in edges && Edge(2, 3) in edges && Edge(3, 4) in edges;
    ReachesNext(edges, 1, 0, 1, 2);
    ReachesNext(edges, 1, 1, 2, 3);
    ReachesNext(edges, 1, 2, 3, 4);
    WithinGrows(edges, 1, 0, 3);
    WithinGrows(edges, 1, 1, 3);
    WithinGrows(edges, 1, 2, 3);
  }

  lemma ReachesNext(edges: seq<Edge>, s: nat, k: nat, x: nat, y: nat)
    requires x in Within(edges, s, k) && Edge(x, y) in edges
    ensures y in Within(edges, s, k + 1)
  {
    assert Edge(x, y).target in Targets(edges, Within(edges, s, k));
  }

  // With an arrow in names two different pairs of one answer share a key: a chain of four services on which no
  // answer of queryGraph lists every edge.
  lemma ArrowNamesClash(edges: seq<GraphEdge>)
    requires OnePerKey(edges, PairsOf(ARROWS, CHAIN, 1, 3, Down))
    ensures !ListsExactly(edges, PairsOf(ARROWS, CHAIN, 1, 3, Down))
  {
    ChainIsReached();
    hide Reach;
    var ids, pairs := Reach(CHAIN, 1, Downstream, 3), PairsOf(ARROWS, CHAIN, 1, 3, Down);
    assert CHAIN[0] in CHAIN && CHAIN[2] in CHAIN;
    assert Joined(ARROWS, CHAIN[0], ids) && Joined(ARROWS, CHAIN[2], ids);
    var p, q := ("a", "b\U{2192}c"), ("a\U{2192}b", "c");
    assert p in InducedPairs(ARROWS, CHAIN, ids) && q in InducedPairs(ARROWS, CHAIN, ids);
    assert p in pairs && q in pairs;
    assert Key(p) == "a\U{2192}b\U{2192}c" == Key(q);
    assert p.0 != q.0;
    hide *;
    ExactIffNoClash(edges, pairs);
    ClashingPairs(pairs, p, q);
  }

  lemma ClashingPairs(pairs: set<(string, string)>, p: (string, string), q: (string, string))
    requires p in pairs && q in pairs && p != q && Key(p) == Key(q)
    ensures !NoClash(pairs)
  {
  }
}
