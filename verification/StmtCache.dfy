// The LRU cache of prepared statements in worker/db/query-engine.js.
module StmtCache {
  import opened Common
  import JsMap

  // A prepared statement belongs to the handle it was prepared on.
  datatype Statement = Statement(sql: string, handle: nat)

  // db.prepare(sql): throws on SQL the handle's database rejects.
  function Prepare(sql: string, handle: nat, bad: set<string>): Outcome<Statement> {
    if sql in bad then Thrown else Done(Statement(sql, handle))
  }

  // A get request that did not throw.
  datatype Request = Request(sql: string, handle: nat)

  // ---------------------------------------------------------------- what the cache should hold

  // The distinct SQL texts of a history, least recently used first.
  function Recency(history: seq<string>): seq<string> {
    if history == [] then []
    else JsMap.Without(Recency(history[..|history| - 1]), history[|history| - 1]) + [history[|history| - 1]]
  }

  function LastOf<T>(s: seq<T>, n: nat): seq<T> {
    if |s| <= n then s else s[|s| - n..]
  }

  lemma {:induction false} RecencyIsDistinct(history: seq<string>)
    ensures Distinct(Recency(history))
    ensures forall x :: x in Recency(history) <==> x in history
  {
    if history != [] {
      var last := |history| - 1;
      RecencyIsDistinct(history[..last]);
      var earlier := Recency(history[..last]);
      JsMap.WithoutMembers(earlier, history[last]);
      JsMap.WithoutDistinct(earlier, history[last]);
      forall x ensures x in Recency(history) <==> x in history {
        assert x in history <==> x in history[..last] || x == history[last];
        assert x in Recency(history) <==> x in JsMap.Without(earlier, history[last]) || x == history[last];
      }
    }
  }

  // x was used after y: some use of x follows every use of y.
  ghost predicate UsedAfter(history: seq<string>, x: string, y: string) {
    exists i :: 0 <= i < |history| && history[i] == x && y !in history[i..]
  }

  // Recency order means what it says: of two entries, the later one has the later last use.
  lemma {:induction false} RecencyOrdersByLastUse(history: seq<string>, i: nat, j: nat)
    requires i < j < |Recency(history)|
    ensures UsedAfter(history, Recency(history)[j], Recency(history)[i])
  {
    var last := |history| - 1;
    var earlier := Recency(history[..last]);
    RecencyIsDistinct(history);
    var x, y := Recency(history)[j], Recency(history)[i];
    assert x != y;
    if j == |Recency(history)| - 1 {
      assert history[last..] == [history[last]];
      assert history[last] == x && y !in history[last..];
    } else {
      var i', j' := WithoutPositions(earlier, history[last], i, j);
      assert earlier[j'] == x && earlier[i'] == y;
      RecencyOrdersByLastUse(history[..last], i', j');
      JsMap.WithoutMembers(earlier, history[last]);
      assert y != history[last];
      var m :| 0 <= m < |history[..last]| && history[..last][m] == x && y !in history[..last][m..];
      assert history[m..] == history[..last][m..] + [history[last]];
      assert history[m] == x && y !in history[m..];
    }
  }

  lemma {:induction false} WithoutPositions(s: seq<string>, k: string, i: nat, j: nat) returns (i': nat, j': nat)
    requires i < j < |JsMap.Without(s, k)|
    ensures i' < j' < |s| && s[i'] == JsMap.Without(s, k)[i] && s[j'] == JsMap.Without(s, k)[j]
  {
    if s[0] == k {
      i', j' := WithoutPositions(s[1..], k, i, j);
      i', j' := i' + 1, j' + 1;
    } else if i > 0 {
      i', j' := WithoutPositions(s[1..], k, i - 1, j - 1);
      i', j' := i' + 1, j' + 1;
    } else {
      i' := 0;
      j' := WithoutPosition(s[1..], k, j - 1);
      j' := j' + 1;
    }
  }

  lemma {:induction false} WithoutPosition(s: seq<string>, k: string, j: nat) returns (j': nat)
    requires j < |JsMap.Without(s, k)|
    ensures j' < |s| && s[j'] == JsMap.Without(s, k)[j]
  {
    if s[0] != k && j == 0 {
      j' := 0;
    } else {
      j' := WithoutPosition(s[1..], k, if s[0] == k then j else j - 1);
      j' := j' + 1;
    }
  }

  // Moving a cached text to the end, and pushing out the oldest when a new text arrives, both give
  // the most recent texts of the longer history.
  lemma RecentAfterHit(r: seq<string>, sql: string, cap: nat)
    requires cap >= 1 && sql in LastOf(r, cap)
    requires Distinct(r)
    ensures LastOf(JsMap.Without(r, sql) + [sql], cap) == JsMap.Without(LastOf(r, cap), sql) + [sql]
  {
    hide JsMap.Without;
    var recent := LastOf(r, cap);
    var older := r[..|r| - |recent|];
    assert r == older + recent;
    assert sql !in older by { SplitApart(older, recent, sql); }
    JsMap.WithoutConcat(older, recent, sql);
    JsMap.WithoutAbsent(older, sql);
    assert Distinct(recent);
    hide LastOf, Distinct;
    WithoutOne(recent, sql);
    Append(older, JsMap.Without(recent, sql), sql);
    LastOfConcat(older, JsMap.Without(recent, sql) + [sql], cap);
  }

  lemma SplitApart(a: seq<string>, b: seq<string>, x: string)
    requires Distinct(a + b) && x in b
    ensures x !in a
  {
    var j :| 0 <= j < |b| && b[j] == x;
    forall i | 0 <= i < |a| ensures a[i] != x {
      assert (a + b)[i] == a[i] && (a + b)[|a| + j] == x;
    }
  }

  lemma Append(a: seq<string>, b: seq<string>, x: string)
    ensures (a + b) + [x] == a + (b + [x])
  {
  }

  lemma LastOfConcat(a: seq<string>, b: seq<string>, cap: nat)
    requires |b| == cap || a == []
    requires |b| <= cap
    ensures LastOf(a + b, cap) == b
  {
  }

  lemma {:induction false} WithoutOne(s: seq<string>, k: string)
    requires k in s && Distinct(s)
    ensures |JsMap.Without(s, k)| == |s| - 1
  {
    if s[0] == k {
      JsMap.WithoutAbsent(s[1..], k);
    } else {
      WithoutOne(s[1..], k);
    }
  }

  lemma Shift(a: seq<string>, b: seq<string>, x: string)
    requires b != []
    ensures a + (b + [x]) == (a + [b[0]]) + (b[1..] + [x])
  {
  }

  lemma MissTail(rest: seq<string>, recent: seq<string>, sql: string, cap: nat)
    requires 1 <= cap && |recent| <= cap && (|recent| < cap ==> rest == [])
    ensures LastOf(rest + (recent + [sql]), cap) == (if |recent| >= cap then recent[1..] else recent) + [sql]
  {
    hide LastOf;
    if |recent| < cap {
      LastOfConcat(rest, recent + [sql], cap);
    } else {
      Shift(rest, recent, sql);
      LastOfConcat(rest + [recent[0]], recent[1..] + [sql], cap);
    }
  }

  lemma RecentAfterMiss(r: seq<string>, sql: string, cap: nat)
    requires cap >= 1 && sql !in LastOf(r, cap)
    requires Distinct(r)
    ensures var recent := LastOf(r, cap);
            LastOf(JsMap.Without(r, sql) + [sql], cap) == (if |recent| >= cap then recent[1..] else recent) + [sql]
  {
    var recent := LastOf(r, cap);
    var older := r[..|r| - |recent|];
    assert r == older + recent;
    JsMap.WithoutConcat(older, recent, sql);
    JsMap.WithoutAbsent(recent, sql);
    var rest := JsMap.Without(older, sql);
    Append(rest, recent, sql);
    assert |recent| < cap ==> rest == [] by {
      if |recent| < cap { assert older == []; }
    }
    hide JsMap.Without, Distinct, LastOf;
    MissTail(rest, recent, sql, cap);
  }

  // ---------------------------------------------------------------- the cache

  class StmtCache {
    const capacity: nat
    var cache: JsMap.Map<string, Statement>
    // The requests served since construction or the last clear.
    ghost var history: seq<Request>

    // A capacity of 0 still leaves the entry just set.
    function Room(): nat {
      if capacity == 0 then 1 else capacity
    }

    ghost function Sqls(): seq<string>
      reads this
    {
      SqlsOf(history)
    }

    // Exactly the most recently used texts, in recency order, each with a statement for its own text
    // on a handle that asked for it.
    ghost predicate Valid()
      reads this
    {
      && cache.Valid()
      && cache.order == LastOf(Recency(Sqls()), Room())
      && (forall sql :: sql in cache.vals ==>
            cache.vals[sql].sql == sql && Request(sql, cache.vals[sql].handle) in history)
    }

    constructor (capacity: nat)
      ensures Valid() && this.capacity == capacity && history == []
    {
      this.capacity := capacity;
      cache := JsMap.Empty();
      history := [];
    }

    // The statement always has the requested SQL. It is on the requested handle iff the text was not
    // cached from another handle: the key leaves the handle out.
    method Get(sql: string, handle: nat, bad: set<string>) returns (r: Outcome<Statement>)
      requires Valid()
      modifies this
      ensures Valid()
      ensures r.Thrown? ==> cache == old(cache) && history == old(history) && sql in bad && sql !in old(cache).vals
      ensures r.Done? ==> history == old(history) + [Request(sql, handle)] && r.value.sql == sql
      ensures sql in old(cache).vals ==> r == Done(old(cache).vals[sql])
      ensures r.Done? ==> (r.value.handle == handle
                           <==> (sql in old(cache).vals ==> old(cache).vals[sql].handle == handle))
    {
      hide Recency, JsMap.Without, LastOf, Distinct;
      ghost var recency := Recency(Sqls());
      RecencyIsDistinct(Sqls());
      RecencyOfLonger(history, Request(sql, handle));
      if sql in cache.vals {
        var stmt := cache.vals[sql];
        RecentAfterHit(recency, sql, Room());
        cache := cache.Delete(sql);
        cache := cache.Set(sql, stmt);
        history := history + [Request(sql, handle)];
        return Done(stmt);
      }
      r := Prepare(sql, handle, bad);
      if r.Done? {
        RecentAfterMiss(recency, sql, Room());
        if |cache.order| >= capacity && cache.order != [] {
          EvictOldest(cache);
          cache := cache.Delete(cache.order[0]);
        }
        cache := cache.Set(sql, r.value);
        history := history + [Request(sql, handle)];
      }
    }

    method Clear()
      modifies this
      ensures Valid() && cache.order == [] && history == []
    {
      cache := JsMap.Empty();
      history := [];
    }

    // With one handle for the whole run, every statement handed out is on it.
    lemma OneHandleServesItself(handle: nat, sql: string)
      requires Valid() && forall i :: 0 <= i < |history| ==> history[i].handle == handle
      requires sql in cache.vals
      ensures cache.vals[sql] == Statement(sql, handle)
    {
    }
  }

  function SqlsOf(history: seq<Request>): seq<string> {
    seq(|history|, i requires 0 <= i < |history| => history[i].sql)
  }

  lemma RecencyOfLonger(history: seq<Request>, r: Request)
    ensures Recency(SqlsOf(history + [r])) == JsMap.Without(Recency(SqlsOf(history)), r.sql) + [r.sql]
  {
    assert SqlsOf(history + [r])[..|history|] == SqlsOf(history);
  }

  lemma EvictOldest(m: JsMap.Map<string, Statement>)
    requires m.Valid() && m.order != []
    ensures JsMap.Without(m.order, m.order[0]) == m.order[1..]
  {
    JsMap.WithoutAbsent(m.order[1..], m.order[0]);
  }

  // A text served on one handle is served on it again when another handle asks.
  method ServeTwice(sql: string, first: nat, second: nat) returns (served: Outcome<Statement>)
    ensures served == Done(Statement(sql, first))
  {
    var cache := new StmtCache(1);
    served := cache.Get(sql, first, {});
    ghost var history := cache.history;
    assert history == [Request(sql, first)] && sql in Recency(SqlsOf(history));
    assert sql in cache.cache.vals && cache.cache.vals[sql].handle == first;
    served := cache.Get(sql, second, {});
  }
}
