// transitiveImpact of worker/db/query-engine.js: a recursive query that carries the visited ids in a
// comma-bracketed string, against breadth-first search.
module Impact {
  import opened Common
  import opened Text

  // A connections row, oriented in the direction of the query (upstream swaps the two columns).
  datatype Edge = Edge(source: nat, target: nat)

  datatype Direction = Downstream | Upstream

  function Oriented(rows: seq<Edge>, direction: Direction): (r: seq<Edge>)
    ensures |r| == |rows|
    ensures forall i :: 0 <= i < |rows| ==>
            r[i] == if direction.Downstream? then rows[i] else Edge(rows[i].target, rows[i].source)
  {
    seq(|rows|, i requires 0 <= i < |rows| =>
        if direction.Downstream? then rows[i] else Edge(rows[i].target, rows[i].source))
  }

  // ---------------------------------------------------------------- breadth-first search

  function Targets(edges: seq<Edge>, sources: set<nat>): set<nat> {
    set e | e in edges && e.source in sources :: e.target
  }

  // The nodes at most k edges from s.
  function Within(edges: seq<Edge>, s: nat, k: nat): set<nat> {
    if k == 0 then {s} else Within(edges, s, k - 1) + Targets(edges, Within(edges, s, k - 1))
  }

  // x is first reached in layer d.
  predicate AtDistance(edges: seq<Edge>, s: nat, x: nat, d: nat) {
    x in Within(edges, s, d) && (d == 0 || x !in Within(edges, s, d - 1))
  }

  lemma {:induction false} WithinGrows(edges: seq<Edge>, s: nat, j: nat, k: nat)
    requires j <= k
    ensures Within(edges, s, j) <= Within(edges, s, k)
    decreases k - j
  {
    if j < k {
      WithinGrows(edges, s, j + 1, k);
    }
  }

  lemma {:induction false} EveryNodeHasALayer(edges: seq<Edge>, s: nat, x: nat, k: nat) returns (d: nat)
    requires x in Within(edges, s, k)
    ensures d <= k && AtDistance(edges, s, x, d)
  {
    if k == 0 || x !in Within(edges, s, k - 1) {
      d := k;
    } else {
      d := EveryNodeHasALayer(edges, s, x, k - 1);
    }
  }

  // ---------------------------------------------------------------- the visited ids as a string

  // ',1,17,7,' for [1, 17, 7]
  function Render(ids: seq<nat>): string {
    if ids == [] then "," else "," + Decimal(ids[0]) + Render(ids[1..])
  }

  function Bracketed(id: nat): string {
    "," + Decimal(id) + ","
  }

  lemma RenderOfCons(id: nat, ids: seq<nat>)
    ensures Render([id] + ids) == "," + Decimal(id) + Render(ids)
  {
    assert ([id] + ids)[1..] == ids;
  }

  lemma {:induction false} RenderAppend(ids: seq<nat>, id: nat)
    ensures Render(ids + [id]) == Render(ids) + Decimal(id) + ","
  {
    if ids == [] {
      RenderOfCons(id, []);
      assert [] + [id] == [id] + [];
    } else {
      RenderAppend(ids[1..], id);
      RenderOfCons(ids[0], ids[1..]);
      RenderOfCons(ids[0], ids[1..] + [id]);
      hide Render;
      assert ids + [id] == [ids[0]] + (ids[1..] + [id]) && ids == [ids[0]] + ids[1..];
      ThreeTexts("," + Decimal(ids[0]), Render(ids[1..]), Decimal(id));
    }
  }

  lemma ThreeTexts(a: string, b: string, c: string)
    ensures a + (b + c + ",") == a + b + c + ","
  {
  }

  // A number followed by a comma at the head of two texts is the same number.
  lemma SameNumberBeforeComma(a: nat, b: nat, rest: string)
    requires Decimal(b) + "," <= Decimal(a) + "," + rest
    ensures a == b
  {
    var da, db := Decimal(a), Decimal(b);
    var hay := da + "," + rest;
    assert hay[..|db| + 1] == db + ",";
    assert (forall i :: 0 <= i < |da| ==> hay[i] == da[i]) && hay[|da|] == ',';
    assert (forall i :: 0 <= i < |db| ==> hay[i] == (db + ",")[i] == db[i]) && hay[|db|] == (db + ",")[|db|] == ',';
    assert da == hay[..|db|] == db;
    DecimalIsInjective(a, b);
  }

  lemma {:induction false} MemberOccurs(ids: seq<nat>, x: nat)
    requires x in ids
    ensures Contains(Render(ids), Bracketed(x))
  {
    var head := "," + Decimal(ids[0]);
    if ids[0] == x {
      assert Render(ids[1..])[0] == ',';
      assert OccursAt(Bracketed(x), Render(ids), 0);
    } else {
      MemberOccurs(ids[1..], x);
      var i :| 0 <= i <= |Render(ids[1..])| && OccursAt(Bracketed(x), Render(ids[1..]), i);
      assert OccursAt(Bracketed(x), Render(ids), |head| + i);
    }
  }

  lemma OccursPastHead(head: string, tail: string, needle: string, i: nat)
    requires |head| <= i && OccursAt(needle, head + tail, i)
    ensures OccursAt(needle, tail, i - |head|)
  {
    assert (head + tail)[i..i + |needle|] == tail[i - |head|..i - |head| + |needle|];
  }

  lemma OccursInHead(head: string, tail: string, needle: string, i: nat)
    requires i < |head| && needle != "" && OccursAt(needle, head + tail, i)
    ensures needle[0] == head[i]
  {
    assert needle[0] == (head + tail)[i..i + |needle|][0] == head[i];
  }

  lemma NumberAtHead(a: nat, x: nat, tail: string)
    requires tail != "" && tail[0] == ',' && OccursAt(Bracketed(x), "," + Decimal(a) + tail, 0)
    ensures a == x
  {
    var hay := "," + Decimal(a) + tail;
    hide Decimal;
    assert tail == "," + tail[1..];
    assert hay[1..] == Decimal(a) + "," + tail[1..];
    assert Bracketed(x)[1..] == Decimal(x) + ",";
    assert hay[..|Bracketed(x)|][1..] == hay[1..][..|Bracketed(x)| - 1];
    SameNumberBeforeComma(a, x, tail[1..]);
  }

  lemma RenderStartsWithComma(ids: seq<nat>)
    ensures Render(ids) != "" && Render(ids)[0] == ','
  {
  }

  lemma {:induction false} OccurrenceIsMember(ids: seq<nat>, x: nat, i: nat)
    requires i <= |Render(ids)| && OccursAt(Bracketed(x), Render(ids), i)
    ensures x in ids
  {
    hide Decimal, OccursAt;
    if ids == [] {
      TooShort(x, i);
    } else {
      var head := "," + Decimal(ids[0]);
      var tail := Render(ids[1..]);
      RenderStartsWithComma(ids[1..]);
      assert Render(ids) == head + tail;
      if i == 0 {
        NumberAtHead(ids[0], x, tail);
      } else if i < |head| {
        OccursInHead(head, tail, Bracketed(x), i);
      } else {
        OccursPastHead(head, tail, Bracketed(x), i);
        OccurrenceIsMember(ids[1..], x, i - |head|);
      }
    }
  }

  lemma TooShort(x: nat, i: nat)
    ensures !OccursAt(Bracketed(x), Render([]), i)
  {
  }

  // path NOT LIKE '%,' || id || ',%' is exactly "id has not been visited".
  lemma StringTestIsMembership(ids: seq<nat>, x: nat)
    ensures Contains(Render(ids), Bracketed(x)) <==> x in ids
  {
    if x in ids {
      MemberOccurs(ids, x);
    }
    if Contains(Render(ids), Bracketed(x)) {
      var i :| 0 <= i <= |Render(ids)| && OccursAt(Bracketed(x), Render(ids), i);
      OccurrenceIsMember(ids, x, i);
    }
  }

  // ---------------------------------------------------------------- the recursive query

  datatype Row = Row(id: nat, depth: nat, path: string)

  // The anchor: one row per edge out of s.
  function Anchor(edges: seq<Edge>, s: nat): seq<Row> {
    if edges == [] then []
    else
      (if edges[0].source == s
       then [Row(edges[0].target, 1, "," + Decimal(s) + "," + Decimal(edges[0].target) + ",")] else [])
      + Anchor(edges[1..], s)
  }

  // The recursive step joined to one row.
  function ExtendRow(edges: seq<Edge>, row: Row, maxDepth: int): seq<Row> {
    if edges == [] then []
    else
      (if edges[0].source == row.id && !Contains(row.path, Bracketed(edges[0].target)) && row.depth < maxDepth
       then [Row(edges[0].target, row.depth + 1, row.path + Decimal(edges[0].target) + ",")] else [])
      + ExtendRow(edges[1..], row, maxDepth)
  }

  function ExtendRows(edges: seq<Edge>, rows: seq<Row>, maxDepth: int): seq<Row> {
    if rows == [] then [] else ExtendRow(edges, rows[0], maxDepth) + ExtendRows(edges, rows[1..], maxDepth)
  }

  // The rows the query adds in its d-th round.
  function Round(edges: seq<Edge>, s: nat, maxDepth: int, d: nat): seq<Row>
    requires d >= 1
  {
    if d == 1 then Anchor(edges, s) else ExtendRows(edges, Round(edges, s, maxDepth, d - 1), maxDepth)
  }

  // The rows of rounds 1 to d.
  function Rows(edges: seq<Edge>, s: nat, maxDepth: int, d: nat): seq<Row> {
    if d == 0 then [] else Rows(edges, s, maxDepth, d - 1) + Round(edges, s, maxDepth, d)
  }

  function Depth(maxDepth: int): nat {
    if maxDepth < 1 then 1 else maxDepth
  }

  // MIN(depth) over the rows of one id
  function MinDepth(rows: seq<Row>, id: nat): (r: Option<nat>)
    ensures r.None? <==> forall i :: 0 <= i < |rows| ==> rows[i].id != id
    ensures r.Some? ==> (exists i :: 0 <= i < |rows| && rows[i].id == id && rows[i].depth == r.value)
                        && forall i :: 0 <= i < |rows| && rows[i].id == id ==> r.value <= rows[i].depth
  {
    if rows == [] then None
    else
      var rest := MinDepth(rows[1..], id);
      if rows[0].id != id then rest
      else if rest.Some? && rest.value <= rows[0].depth then rest else Some(rows[0].depth)
  }

  // SELECT id, name, MIN(depth) ... JOIN services ... GROUP BY id; name is services[id]
  function TransitiveImpact(rows: seq<Edge>, services: map<nat, string>, s: nat, direction: Direction, maxDepth: int)
    : map<nat, nat>
  {
    var all := Rows(Oriented(rows, direction), s, maxDepth, Depth(maxDepth));
    map id | id in services && MinDepth(all, id).Some? :: MinDepth(all, id).value
  }

  // ---------------------------------------------------------------- rows are simple trails

  // A trail is a list of ids, each joined to the next by an edge; a guarded one never revisits an id
  // after its first edge.
  ghost predicate IsTrail(edges: seq<Edge>, s: nat, guarded: bool, t: seq<nat>)
    decreases |t|
  {
    && |t| >= 2 && t[0] == s && Edge(t[|t| - 2], t[|t| - 1]) in edges
    && (|t| > 2 ==> IsTrail(edges, s, guarded, t[..|t| - 1]) && (guarded ==> t[|t| - 1] !in t[..|t| - 1]))
  }

  function RowOf(t: seq<nat>): Row
    requires |t| >= 2
  {
    Row(t[|t| - 1], |t| - 1, Render(t))
  }

  lemma {:induction false} AnchorRows(edges: seq<Edge>, s: nat, row: Row)
    ensures row in Anchor(edges, s) <==> IsRowOfTrail(edges, s, 1, row)
  {
    if row in Anchor(edges, s) {
      var x := AnchorTarget(edges, s, row);
      RenderPair(s, x);
      assert IsTrail(edges, s, true, [s, x]) && row == RowOf([s, x]);
    }
    if t :| |t| == 2 && IsTrail(edges, s, true, t) && row == RowOf(t) {
      assert t == [s, t[1]];
      RenderPair(s, t[1]);
      AnchorHasEdge(edges, s, t[1]);
    }
  }

  lemma RenderPair(s: nat, x: nat)
    ensures Render([s, x]) == "," + Decimal(s) + "," + Decimal(x) + ","
  {
    RenderAppend([], s);
    RenderAppend([s], x);
    assert [] + [s] == [s] && [s] + [x] == [s, x];
  }

  lemma {:induction false} AnchorTarget(edges: seq<Edge>, s: nat, row: Row) returns (x: nat)
    requires row in Anchor(edges, s)
    ensures Edge(s, x) in edges && row == Row(x, 1, "," + Decimal(s) + "," + Decimal(x) + ",")
  {
    x := edges[0].target;
    if !(edges[0].source == s && row == Row(x, 1, "," + Decimal(s) + "," + Decimal(x) + ",")) {
      x := AnchorTarget(edges[1..], s, row);
    }
  }

  lemma {:induction false} AnchorHasEdge(edges: seq<Edge>, s: nat, x: nat)
    requires Edge(s, x) in edges
    ensures Row(x, 1, "," + Decimal(s) + "," + Decimal(x) + ",") in Anchor(edges, s)
  {
    if edges[0] != Edge(s, x) {
      AnchorHasEdge(edges[1..], s, x);
    }
  }

  // The string guard and the depth guard, read as conditions on the trail.
  lemma {:induction false} ExtendedRow(edges: seq<Edge>, t: seq<nat>, maxDepth: int, row: Row)
    requires |t| >= 2
    ensures row in ExtendRow(edges, RowOf(t), maxDepth)
            <==> |t| - 1 < maxDepth
                 && exists x :: Edge(t[|t| - 1], x) in edges && x !in t && row == RowOf(t + [x])
  {
    if edges != [] {
      ExtendedRow(edges[1..], t, maxDepth, row);
      var x := edges[0].target;
      StringTestIsMembership(t, x);
      RenderAppend(t, x);
      assert edges == [edges[0]] + edges[1..];
      assert RowOf(t + [x]) == Row(x, |t|, Render(t) + Decimal(x) + ",");
      hide Render, Contains, Decimal;
    }
  }

  lemma {:induction false} ExtendedRows(edges: seq<Edge>, rows: seq<Row>, maxDepth: int, row: Row)
    ensures row in ExtendRows(edges, rows, maxDepth)
            <==> exists i :: 0 <= i < |rows| && row in ExtendRow(edges, rows[i], maxDepth)
  {
    if rows != [] {
      ExtendedRows(edges, rows[1..], maxDepth, row);
      if i :| 0 <= i < |rows| && row in ExtendRow(edges, rows[i], maxDepth) {
        if i > 0 {
          assert rows[1..][i - 1] == rows[i];
        }
      }
    }
  }

  ghost predicate IsRowOfTrail(edges: seq<Edge>, s: nat, d: nat, row: Row) {
    exists t :: |t| == d + 1 >= 2 && IsTrail(edges, s, true, t) && row == RowOf(t)
  }

  // Round d holds exactly the rows of the guarded trails of d edges, as long as the depth allows d.
  lemma {:induction false} RoundIsTrails(edges: seq<Edge>, s: nat, maxDepth: int, d: nat, row: Row)
    requires d >= 1
    ensures row in Round(edges, s, maxDepth, d) <==> (d == 1 || d <= maxDepth) && IsRowOfTrail(edges, s, d, row)
    decreases d
  {
    if d == 1 {
      AnchorRows(edges, s, row);
    } else {
      if row in Round(edges, s, maxDepth, d) {
        RoundRowsAreTrails(edges, s, maxDepth, d, row);
      }
      if d <= maxDepth && IsRowOfTrail(edges, s, d, row) {
        var t :| |t| == d + 1 && IsTrail(edges, s, true, t) && row == RowOf(t);
        RoundHoldsTrail(edges, s, maxDepth, d, t);
      }
    }
  }

  lemma {:induction false} RoundRowsAreTrails(edges: seq<Edge>, s: nat, maxDepth: int, d: nat, row: Row)
    requires d >= 2 && row in Round(edges, s, maxDepth, d)
    ensures d <= maxDepth && IsRowOfTrail(edges, s, d, row)
    decreases d, 0
  {
    hide IsTrail, ExtendRow, RowOf;
    var rows := Round(edges, s, maxDepth, d - 1);
    ExtendedRows(edges, rows, maxDepth, row);
    var i :| 0 <= i < |rows| && row in ExtendRow(edges, rows[i], maxDepth);
    RoundIsTrails(edges, s, maxDepth, d - 1, rows[i]);
    hide Round, ExtendRows;
    var t :| |t| == d && IsTrail(edges, s, true, t) && rows[i] == RowOf(t);
    ExtendedTrail(edges, s, t, maxDepth, row);
  }

  lemma ExtendedTrail(edges: seq<Edge>, s: nat, t: seq<nat>, maxDepth: int, row: Row)
    requires IsTrail(edges, s, true, t) && row in ExtendRow(edges, RowOf(t), maxDepth)
    ensures |t| <= maxDepth && IsRowOfTrail(edges, s, |t|, row)
  {
    ExtendedRow(edges, t, maxDepth, row);
    hide ExtendRow, Render;
    var x :| Edge(t[|t| - 1], x) in edges && x !in t && row == RowOf(t + [x]);
    var longer := t + [x];
    assert longer[..|t|] == t;
    assert IsTrail(edges, s, true, longer);
  }

  lemma {:induction false} RoundHoldsTrail(edges: seq<Edge>, s: nat, maxDepth: int, d: nat, t: seq<nat>)
    requires 2 <= d <= maxDepth && |t| == d + 1 && IsTrail(edges, s, true, t)
    ensures RowOf(t) in Round(edges, s, maxDepth, d)
    decreases d, 0
  {
    hide ExtendRow, ExtendRows, RowOf, IsTrail, IsRowOfTrail;
    var rows := Round(edges, s, maxDepth, d - 1);
    var t' := t[..d];
    PrefixIsTrail(edges, s, t);
    RoundIsTrails(edges, s, maxDepth, d - 1, RowOf(t'));
    var i :| 0 <= i < |rows| && rows[i] == RowOf(t');
    TrailExtends(edges, s, t, maxDepth);
    ExtendedRows(edges, rows, maxDepth, RowOf(t));
  }

  lemma PrefixIsTrail(edges: seq<Edge>, s: nat, t: seq<nat>)
    requires |t| > 2 && IsTrail(edges, s, true, t)
    ensures IsRowOfTrail(edges, s, |t| - 2, RowOf(t[..|t| - 1]))
  {
    hide Render;
    assert IsTrail(edges, s, true, t[..|t| - 1]);
  }

  lemma TrailExtends(edges: seq<Edge>, s: nat, t: seq<nat>, maxDepth: int)
    requires |t| > 2 && |t| - 1 <= maxDepth && IsTrail(edges, s, true, t)
    ensures RowOf(t) in ExtendRow(edges, RowOf(t[..|t| - 1]), maxDepth)
  {
    var t', x := t[..|t| - 1], t[|t| - 1];
    assert t == t' + [x];
    ExtendedRow(edges, t', maxDepth, RowOf(t));
    hide ExtendRow, Render;
    assert Edge(t'[|t'| - 1], x) in edges && x !in t' && RowOf(t) == RowOf(t' + [x]);
  }

  // ---------------------------------------------------------------- trails and layers

  // One edge more from a node that is within.
  lemma EdgeStaysWithin(edges: seq<Edge>, s: nat, t: seq<nat>, n: nat)
    requires |t| >= 2 && Edge(t[|t| - 2], t[|t| - 1]) in edges && t[|t| - 2] in Within(edges, s, n)
    ensures t[|t| - 1] in Within(edges, s, n + 1)
  {
  }

  lemma {:induction false} TrailStaysWithin(edges: seq<Edge>, s: nat, guarded: bool, t: seq<nat>)
    requires IsTrail(edges, s, guarded, t)
    ensures forall i :: 0 <= i < |t| ==> t[i] in Within(edges, s, |t| - 1)
    decreases |t|
  {
    var n := |t| - 1;
    WithinGrows(edges, s, n - 1, n);
    if n == 1 {
      EdgeStaysWithin(edges, s, t, 0);
    } else {
      var prefix := t[..n];
      TrailStaysWithin(edges, s, guarded, prefix);
      hide Within, IsTrail;
      assert t[n - 1] == prefix[n - 1];
      EdgeStaysWithin(edges, s, t, n - 1);
      forall i | 0 <= i < n ensures t[i] in Within(edges, s, n) {
        assert prefix[i] == t[i];
      }
    }
  }

  // Every node of layer d > 0 ends a trail of d edges that never revisits a node.
  lemma {:induction false} LayerHasTrail(edges: seq<Edge>, s: nat, x: nat, d: nat) returns (t: seq<nat>)
    requires d > 0 && AtDistance(edges, s, x, d)
    ensures |t| == d + 1 && IsTrail(edges, s, true, t) && t[d] == x
    decreases d
  {
    var e :| e in edges && e.source in Within(edges, s, d - 1) && e.target == x;
    if d == 1 {
      t := [s, x];
    } else {
      assert e.source !in Within(edges, s, d - 2);
      var t' := LayerHasTrail(edges, s, e.source, d - 1);
      TrailStaysWithin(edges, s, true, t');
      t := t' + [x];
      assert t[..d] == t';
    }
  }

  // ---------------------------------------------------------------- the theorem

  lemma {:induction false} RowInARound(edges: seq<Edge>, s: nat, maxDepth: int, n: nat, row: Row) returns (d: nat)
    requires row in Rows(edges, s, maxDepth, n)
    ensures 1 <= d <= n && row in Round(edges, s, maxDepth, d)
  {
    d := n;
    if row !in Round(edges, s, maxDepth, n) {
      d := RowInARound(edges, s, maxDepth, n - 1, row);
    }
  }

  lemma {:induction false} RoundInRows(edges: seq<Edge>, s: nat, maxDepth: int, n: nat, row: Row, d: nat)
    requires 1 <= d <= n && row in Round(edges, s, maxDepth, d)
    ensures row in Rows(edges, s, maxDepth, n)
  {
    hide Round;
    if d < n {
      RoundInRows(edges, s, maxDepth, n - 1, row, d);
    }
  }

  lemma RowIsTrail(edges: seq<Edge>, s: nat, maxDepth: int, row: Row) returns (t: seq<nat>)
    requires row in Rows(edges, s, maxDepth, Depth(maxDepth))
    ensures IsTrail(edges, s, true, t) && row == RowOf(t) && |t| - 1 <= Depth(maxDepth)
  {
    var d := RowInARound(edges, s, maxDepth, Depth(maxDepth), row);
    RoundIsTrails(edges, s, maxDepth, d, row);
    t :| |t| == d + 1 && IsTrail(edges, s, true, t) && row == RowOf(t);
  }

  lemma TrailGivesRow(edges: seq<Edge>, s: nat, t: seq<nat>)
    requires IsTrail(edges, s, true, t)
    ensures |t| >= 2 && IsRowOfTrail(edges, s, |t| - 1, RowOf(t))
  {
  }

  lemma TrailIsRow(edges: seq<Edge>, s: nat, maxDepth: int, t: seq<nat>)
    requires IsTrail(edges, s, true, t) && |t| - 1 <= Depth(maxDepth)
    ensures RowOf(t) in Rows(edges, s, maxDepth, Depth(maxDepth))
  {
    hide RowOf, Render, Round, Rows, IsTrail, IsRowOfTrail;
    TrailGivesRow(edges, s, t);
    var row, d, n := RowOf(t), |t| - 1, Depth(maxDepth);
    assert 1 <= d <= n && (d == 1 || d <= maxDepth);
    hide Depth;
    RoundIsTrails(edges, s, maxDepth, d, row);
    RoundInRows(edges, s, maxDepth, n, row, d);
  }

  lemma {:induction false} SimpleTrailsAvoidRoot(edges: seq<Edge>, s: nat, t: seq<nat>)
    requires IsTrail(edges, s, true, t) && t[|t| - 1] == s
    ensures |t| == 2 && Edge(s, s) in edges
  {
    assert t[..|t| - 1][0] == s;
  }

  lemma RowsReachOnly(edges: seq<Edge>, s: nat, maxDepth: int, row: Row)
    requires row in Rows(edges, s, maxDepth, Depth(maxDepth))
    ensures row.depth <= Depth(maxDepth) && row.id in Within(edges, s, row.depth)
  {
    hide Rows, Render;
    var t := RowIsTrail(edges, s, maxDepth, row);
    hide Within, IsTrail;
    TrailStaysWithin(edges, s, true, t);
  }

  lemma LayerHasRow(edges: seq<Edge>, s: nat, maxDepth: int, x: nat, d: nat)
    requires x != s && d <= Depth(maxDepth) && AtDistance(edges, s, x, d)
    ensures exists row :: row in Rows(edges, s, maxDepth, Depth(maxDepth)) && row.id == x && row.depth == d
  {
    var t := LayerHasTrail(edges, s, x, d);
    TrailIsRow(edges, s, maxDepth, t);
    assert RowOf(t).id == x && RowOf(t).depth == d;
  }

  lemma MinDepthOfOthers(edges: seq<Edge>, s: nat, maxDepth: int, x: nat)
    requires x != s
    ensures var min := MinDepth(Rows(edges, s, maxDepth, Depth(maxDepth)), x);
            (min.Some? <==> x in Within(edges, s, Depth(maxDepth)))
                && (min.Some? ==> AtDistance(edges, s, x, min.value))
  {
    hide Rows, Within;
    var rows := Rows(edges, s, maxDepth, Depth(maxDepth));
    var min := MinDepth(rows, x);
    if min.Some? {
      var i :| 0 <= i < |rows| && rows[i].id == x && rows[i].depth == min.value;
      RowsReachOnly(edges, s, maxDepth, rows[i]);
      WithinGrows(edges, s, min.value, Depth(maxDepth));
    }
    if x in Within(edges, s, Depth(maxDepth)) {
      var d := EveryNodeHasALayer(edges, s, x, Depth(maxDepth));
      LayerHasRow(edges, s, maxDepth, x, d);
      var row :| row in rows && row.id == x && row.depth == d;
      assert min.Some? && min.value <= d;
      if d > 0 && min.value <= d - 1 {
        WithinGrows(edges, s, min.value, d - 1);
      }
    }
  }

  lemma MinDepthOfRoot(edges: seq<Edge>, s: nat, maxDepth: int)
    ensures var min := MinDepth(Rows(edges, s, maxDepth, Depth(maxDepth)), s);
            min == if Edge(s, s) in edges then Some(1) else None
  {
    var rows := Rows(edges, s, maxDepth, Depth(maxDepth));
    var min := MinDepth(rows, s);
    if min.Some? {
      var i :| 0 <= i < |rows| && rows[i].id == s && rows[i].depth == min.value;
      var t := RowIsTrail(edges, s, maxDepth, rows[i]);
      SimpleTrailsAvoidRoot(edges, s, t);
    }
    if Edge(s, s) in edges {
      assert IsTrail(edges, s, true, [s, s]);
      TrailIsRow(edges, s, maxDepth, [s, s]);
    }
  }

  // For every graph, start and depth: the query lists exactly the services other than s that breadth-first
  // search reaches within the depth, each with its layer, and s itself, at depth 1, iff it has a self-loop.
  lemma TransitiveImpactIsBreadthFirst(rows: seq<Edge>, services: map<nat, string>, s: nat, direction: Direction,
                                       maxDepth: int, x: nat)
    ensures var edges, found := Oriented(rows, direction), TransitiveImpact(rows, services, s, direction, maxDepth);
            && (x in found
                <==> x in services && if x == s then Edge(s, s) in edges else x in Within(edges, s, Depth(maxDepth)))
            && (x in found ==> if x == s then found[x] == 1 else AtDistance(edges, s, x, found[x]))
  {
    var edges := Oriented(rows, direction);
    if x == s {
      MinDepthOfRoot(edges, s, maxDepth);
    } else {
      MinDepthOfOthers(edges, s, maxDepth, x);
    }
  }

  // Upstream is downstream on the reversed graph.
  lemma UpstreamIsReversed(rows: seq<Edge>, services: map<nat, string>, s: nat, maxDepth: int)
    ensures TransitiveImpact(rows, services, s, Upstream, maxDepth)
            == TransitiveImpact(Oriented(rows, Upstream), services, s, Downstream, maxDepth)
  {
    assert Oriented(Oriented(rows, Upstream), Downstream) == Oriented(rows, Upstream);
  }

  // ---------------------------------------------------------------- the same by walks

  // A walk along the rows, in the direction of the query.
  ghost predicate IsWalk(rows: seq<Edge>, direction: Direction, w: seq<nat>) {
    w != [] && forall i :: 0 <= i < |w| - 1 ==>
      (if direction.Downstream? then Edge(w[i], w[i + 1]) else Edge(w[i + 1], w[i])) in rows
  }

  // x can be reached from s over at most k rows.
  ghost predicate Reaches(rows: seq<Edge>, direction: Direction, s: nat, x: nat, k: int) {
    exists w :: IsWalk(rows, direction, w) && w[0] == s && w[|w| - 1] == x && |w| - 1 <= k
  }

  lemma OrientedEdge(rows: seq<Edge>, direction: Direction, a: nat, b: nat)
    ensures Edge(a, b) in Oriented(rows, direction)
            <==> (if direction.Downstream? then Edge(a, b) else Edge(b, a)) in rows
  {
    var edges := Oriented(rows, direction);
    if direction.Downstream? {
      if Edge(a, b) in rows {
        var i :| 0 <= i < |rows| && rows[i] == Edge(a, b);
        assert edges[i] == Edge(a, b);
      }
    } else if Edge(b, a) in rows {
      var i :| 0 <= i < |rows| && rows[i] == Edge(b, a);
      assert edges[i] == Edge(a, b);
    }
  }

  lemma {:induction false} WalkStaysWithin(rows: seq<Edge>, direction: Direction, s: nat, w: seq<nat>, k: nat)
    requires IsWalk(rows, direction, w) && w[0] == s && |w| - 1 <= k
    ensures w[|w| - 1] in Within(Oriented(rows, direction), s, k)
  {
    var edges, last := Oriented(rows, direction), |w| - 1;
    if last == 0 {
      WithinGrows(edges, s, 0, k);
    } else {
      WalkStaysWithin(rows, direction, s, w[..last], k - 1);
      OrientedEdge(rows, direction, w[last - 1], w[last]);
      assert Edge(w[last - 1], w[last]).target in Targets(edges, Within(edges, s, k - 1));
    }
  }

  lemma {:induction false} WithinHasWalk(rows: seq<Edge>, direction: Direction, s: nat, x: nat, k: nat)
      returns (w: seq<nat>)
    requires x in Within(Oriented(rows, direction), s, k)
    ensures IsWalk(rows, direction, w) && w[0] == s && w[|w| - 1] == x && |w| - 1 <= k
    decreases k
  {
    var edges := Oriented(rows, direction);
    if k == 0 {
      w := [s];
    } else if x in Within(edges, s, k - 1) {
      w := WithinHasWalk(rows, direction, s, x, k - 1);
    } else {
      var e :| e in edges && e.source in Within(edges, s, k - 1) && e.target == x;
      w := WithinHasWalk(rows, direction, s, e.source, k - 1);
      OrientedEdge(rows, direction, e.source, x);
      w := w + [x];
    }
  }

  lemma WithinIffReaches(rows: seq<Edge>, direction: Direction, s: nat, x: nat, k: nat)
    ensures x in Within(Oriented(rows, direction), s, k) <==> Reaches(rows, direction, s, x, k)
  {
    if x in Within(Oriented(rows, direction), s, k) {
      var w := WithinHasWalk(rows, direction, s, x, k);
    }
    if Reaches(rows, direction, s, x, k) {
      var w :| IsWalk(rows, direction, w) && w[0] == s && w[|w| - 1] == x && |w| - 1 <= k;
      WalkStaysWithin(rows, direction, s, w, k);
    }
  }

  // The query over the rows as they are stored: another service is listed exactly if a walk of at most maxDepth rows,
  // and at least one is always followed, leads to it, and its depth is that of the shortest walk.
  lemma ImpactByWalks(rows: seq<Edge>, services: map<nat, string>, s: nat, direction: Direction, maxDepth: int, x: nat)
    requires x != s
    ensures var found := TransitiveImpact(rows, services, s, direction, maxDepth);
            && (x in found <==> x in services && Reaches(rows, direction, s, x, if maxDepth < 1 then 1 else maxDepth))
            && (x in found ==>
                  Reaches(rows, direction, s, x, found[x]) && !Reaches(rows, direction, s, x, found[x] as int - 1))
  {
    TransitiveImpactIsBreadthFirst(rows, services, s, direction, maxDepth, x);
    WithinIffReaches(rows, direction, s, x, Depth(maxDepth));
    var found := TransitiveImpact(rows, services, s, direction, maxDepth);
    hide Reaches, Within, TransitiveImpact;
    if x in found {
      WithinIffReaches(rows, direction, s, x, found[x]);
      if found[x] > 0 {
        WithinIffReaches(rows, direction, s, x, found[x] - 1);
      } else {
        NothingReachesBelow(rows, direction, s, x);
      }
    }
  }

  lemma NothingReachesBelow(rows: seq<Edge>, direction: Direction, s: nat, x: nat)
    ensures !Reaches(rows, direction, s, x, -1)
  {
  }

  // ---------------------------------------------------------------- termination

  lemma {:induction false} TrailIsDistinct(edges: seq<Edge>, s: nat, t: seq<nat>)
    requires IsTrail(edges, s, true, t)
    ensures forall i, j :: 1 <= i < j < |t| ==> t[i] != t[j]
    ensures forall i :: 1 <= i < |t| ==> t[i] in set e | e in edges :: e.target
    decreases |t|
  {
    if |t| > 2 {
      var shorter := t[..|t| - 1];
      TrailIsDistinct(edges, s, shorter);
      assert forall i :: 0 <= i < |shorter| ==> t[i] == shorter[i];
    }
  }

  lemma {:induction false} DistinctFit(t: seq<nat>, nodes: set<nat>)
    requires forall i, j :: 0 <= i < j < |t| ==> t[i] != t[j]
    requires forall i :: 0 <= i < |t| ==> t[i] in nodes
    ensures |t| <= |nodes|
  {
    if t != [] {
      var last := |t| - 1;
      assert forall i :: 0 <= i < last ==> t[..last][i] == t[i];
      DistinctFit(t[..last], nodes - {t[last]});
    }
  }

  // The path guard alone ends the recursion: no round after the last target adds a row, whatever the depth.
  lemma RoundsDieOut(edges: seq<Edge>, s: nat, maxDepth: int, d: nat)
    requires d > |set e | e in edges :: e.target|
    ensures d >= 1 && Round(edges, s, maxDepth, d) == []
  {
    var nodes := set e | e in edges :: e.target;
    if Round(edges, s, maxDepth, d) != [] {
      var row := Round(edges, s, maxDepth, d)[0];
      RoundIsTrails(edges, s, maxDepth, d, row);
      var t :| |t| == d + 1 && IsTrail(edges, s, true, t) && row == RowOf(t);
      TrailIsDistinct(edges, s, t);
      DistinctFit(t[1..], nodes);
      assert false;
    }
  }
}
